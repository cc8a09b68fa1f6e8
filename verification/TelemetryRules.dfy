/**
 * groom/groom/alerts.py: exactly which records and ticks raise each rule, which retire it, and what the fields the rules
 * look at hold after any history of a session.
 */
module TelemetryRules {
  import opened Wrappers
  import opened Text
  import opened Churn
  import opened RunTelemetry
  import opened RunTelemetryLaws

  // ---- the run a record finds ----

  /** A tick, or a record that names no session, the run's own or a later one. */
  predicate IsAccepted(run: Run, event: Event) {
    var (pid, generation) := RecordSession(event);
    || generation.None? || run.session.None?
    || run.session.value == Session(pid, generation.value) || generation.value > run.session.value.generation
  }

  /** The record is the first of a session: the run's first, or a later one than the run's. */
  predicate IsFirst(run: Run, event: Event) {
    var (pid, generation) := RecordSession(event);
    generation.Some? && (run.session.None? || generation.value > run.session.value.generation)
  }

  /** A run of no session that ended before what the record speaks of: it is taken to run again. */
  predicate Outlives(run: Run, event: Event) {
    && !event.TickEvent? && RecordSession(event).1.None? && run.session.None?
    && run.ending.terminal != "" && RecordTs(event) > run.ending.ts
  }

  /** The pages a record finds raised: none in a new session or after an outlived ending, and never STALL. */
  function FoundFired(run: Run, event: Event): set<Rule> {
    if event.TickEvent? then run.fired
    else if IsFirst(run, event) || Outlives(run, event) then {}
    else run.fired - {STALL}
  }

  function FoundNode(run: Run, event: Event): Node {
    if IsFirst(run, event) then Node("", 0.0) else run.node
  }

  function FoundTurn(run: Run, event: Event): Turn {
    if IsFirst(run, event) then Turn(None, 0.0, 0.0) else run.turn
  }

  function FoundWait(run: Run, event: Event): Wait {
    if IsFirst(run, event) then Wait("", 0.0, None, {}, "", "") else run.wait
  }

  // ---- what raises each rule ----

  predicate Silent(run: Run, now: real, rules: Settings) {
    && now - run.live.lastSpanTs > rules.stallAfter
    && now - run.live.lastHeartbeatTs > rules.stallAfter
    && now - run.firstSeenTs > rules.stallAfter
  }

  /** An active agent turn has been idle for longer than the limit, or with none active a node has been open that long. */
  predicate NotProgressing(run: Run, rules: Settings) {
    || (run.turn.active == Some(true) && run.turn.idle > rules.stuckAfter)
    || (run.turn.active != Some(true) && run.node.current != "" && run.node.elapsed > rules.stuckAfter)
  }

  predicate TickRaises(run: Run, now: real, rules: Settings, rule: Rule) {
    && run.ending.terminal == ""
    && match rule
       case STALL => Silent(run, now, rules)
       case WAITING => !Silent(run, now, rules) && run.wait.kind == "operator" && run.wait.elapsed > rules.waitAfter
       case STUCK => !Silent(run, now, rules) && run.wait.kind == "" && NotProgressing(run, rules)
       case _ => false
  }

  predicate EndsRun(span: Span) {
    StartsWith(span.name, "run:")
  }

  predicate SpanRaises(span: Span, rules: Settings, rule: Rule) {
    match rule
    case ENDED => EndsRun(span)
    case WATCHDOG => !EndsRun(span) && "watchdog_kill" in span.events
    case GAVE_UP => !EndsRun(span) && span.node in rules.giveupNodes
    case _ => false
  }

  function WaitKind(point: Point): string {
    if "wait_kind" in point.attrs then point.attrs["wait_kind"] else ""
  }

  /** A point of a wait that was closed, or one that would close or time another wait than the open one. */
  predicate IsLate(wait: Wait, point: Point) {
    && WaitKind(point) != ""
    && (|| (&& point.attrs in wait.closed
            && (point.name == "workhorse.wait.elapsed_s" || (point.name == "workhorse.wait.active" && point.value >= 1.0)))
        || (&& wait.series.Some? && wait.series.value != point.attrs
            && (point.name == "workhorse.wait.elapsed_s" || (point.name == "workhorse.wait.active" && point.value < 1.0))))
  }

  /** The point opens a wait: it says one is active, or times one while none is open. */
  predicate Opens(wait: Wait, point: Point) {
    || (point.name == "workhorse.wait.active" && point.value >= 1.0)
    || (point.name == "workhorse.wait.elapsed_s" && wait.kind == "" && WaitKind(point) != "")
  }

  predicate PointRaises(wait: Wait, point: Point, rule: Rule) {
    rule == BLOCKED && !IsLate(wait, point) && Opens(wait, point) && WaitKind(point) == "operator"
  }

  /** The rule is raised by this event: what it stands for holds, and it was not raised already. */
  predicate Raises(run: Run, event: Event, rules: Settings, rule: Rule) {
    && rule !in FoundFired(run, event)
    && match event
       case TickEvent(now) => TickRaises(run, now, rules, rule)
       case SpanEvent(span, _) => IsAccepted(run, event) && SpanRaises(span, rules, rule)
       case PointEvent(point, _) => IsAccepted(run, event) && PointRaises(FoundWait(run, event), point, rule)
  }

  // ---- what retires each rule ----

  function NodeOf(attrs: Attrs): string {
    if "node" in attrs then attrs["node"] else ""
  }

  /** The point says another node is now active than the current one. */
  predicate MovesOn(node: Node, point: Point) {
    point.name == "workhorse.node.active" && point.value >= 1.0 && node.current != NodeOf(point.attrs)
  }

  /** The point closes the wait: it says so, or the run moved on to another node than the wait's. */
  predicate Closes(node: Node, wait: Wait, point: Point) {
    || (point.name == "workhorse.wait.active" && point.value < 1.0)
    || (&& MovesOn(node, point) && wait.kind != "" && wait.series.Some?
        && NodeOf(wait.series.value) != "" && NodeOf(wait.series.value) != NodeOf(point.attrs))
  }

  /** The point shows progress: the node moved on or ended, a wait opened, the turn ended, or it is not idle for long. */
  predicate Progresses(node: Node, turn: Turn, wait: Wait, point: Point, rules: Settings) {
    || MovesOn(node, point)
    || (point.name == "workhorse.node.active" && point.value < 1.0 && node.current == NodeOf(point.attrs))
    || Opens(wait, point)
    || (point.name == "workhorse.turn.active" && point.value < 1.0)
    || (point.name == "workhorse.turn.idle_s" && turn.active != Some(false) && point.value <= rules.stuckAfter)
  }

  predicate Retires(node: Node, turn: Turn, wait: Wait, point: Point, rules: Settings, rule: Rule) {
    && !IsLate(wait, point)
    && match rule
       case STUCK => Progresses(node, turn, wait, point, rules)
       case BLOCKED => Closes(node, wait, point)
       case WAITING => Closes(node, wait, point)
       case CHURN => point.name == "workhorse.gas.refuels"
       case _ => false
  }

  // ---- the laws ----

  lemma TickLaw(run: Run, now: real, rules: Settings, rule: Rule)
    ensures var (run', alerts) := FoldTick(run, now, rules);
      && Raised(alerts, rule) == (if rule !in run.fired && TickRaises(run, now, rules, rule) then 1 else 0)
      && (rule in run'.fired <==> rule in run.fired || TickRaises(run, now, rules, rule))
      && run' == run.(fired := run'.fired)
  {
  }

  /** An accepted record finds the run as described, before it has its own effect. */
  lemma SpanFinds(run: Run, span: Span, now: real)
    requires Accepts(run, span.pid, span.generation)
    ensures var event, arrived := SpanEvent(span, now), SpanArrived(run, span, now);
      arrived.fired == FoundFired(run, event) && arrived.live.lastSpanTs == now
  {
  }

  lemma PointFinds(run: Run, point: Point, now: real)
    requires Accepts(run, point.pid, point.generation)
    ensures var event, arrived := PointEvent(point, now), PointArrived(run, point);
      && arrived.fired == FoundFired(run, event) && arrived.node == FoundNode(run, event)
      && arrived.turn == FoundTurn(run, event) && arrived.wait == FoundWait(run, event)
  {
  }

  lemma AcceptedExactlyWhen(run: Run, event: Event)
    ensures var (pid, generation) := RecordSession(event); IsAccepted(run, event) <==> Accepts(run, pid, generation)
  {
  }

  lemma FireIfLaw(condition: bool, run: Run, fired: Rule, visit: Option<Visit>, rule: Rule)
    ensures var (run', alerts) := FireIf(condition, run, fired, visit);
      && Raised(alerts, rule) == (if condition && rule == fired && rule !in run.fired then 1 else 0)
      && (rule in run'.fired <==> rule in run.fired || (condition && rule == fired))
      && run' == run.(fired := run'.fired)
  {
  }

  lemma VisitLaw(run: Run, span: Span, rules: Settings, rule: Rule)
    requires rule != CHURN
    ensures var (run', alerts) := FoldVisit(run, span, rules);
      Raised(alerts, rule) == 0 && (rule in run'.fired <==> rule in run.fired)
  {
    hide Observe, CountsAsVisit;
  }

  lemma SpanLaw(run: Run, span: Span, now: real, rules: Settings, rule: Rule)
    requires IsAccepted(run, SpanEvent(span, now)) && rule != CHURN
    ensures var event := SpanEvent(span, now);
      var (run', alerts) := FoldSpan(run, span, now, rules);
      && Raised(alerts, rule) == (if Raises(run, event, rules, rule) then 1 else 0)
      && (rule in run'.fired <==> rule in FoundFired(run, event) || SpanRaises(span, rules, rule))
  {
    hide FoldVisit, FireIf, FoundFired, SpanArrived;
    var event, arrived := SpanEvent(span, now), SpanArrived(run, span, now);
    AcceptedExactlyWhen(run, event);
    SpanFinds(run, span, now);
    if EndsRun(span) {
      FireIfLaw(true, arrived.(ending := EndingOf(span, now)), ENDED, None, rule);
      FireIsFireIf(arrived.(ending := EndingOf(span, now)), ENDED);
    } else {
      var (r1, a1) := FireIf("watchdog_kill" in span.events, arrived, WATCHDOG, None);
      var (r2, a2) := FireIf(span.node in rules.giveupNodes, r1, GAVE_UP, None);
      FireIfLaw("watchdog_kill" in span.events, arrived, WATCHDOG, None, rule);
      FireIfLaw(span.node in rules.giveupNodes, r1, GAVE_UP, None, rule);
      VisitLaw(r2, span, rules, rule);
      RaisedAppend(a1 + a2, FoldVisit(r2, span, rules).1, rule);
      RaisedAppend(a1, a2, rule);
    }
  }

  /** The metric's own effect on the pages, from a state it is not late for. */
  ghost predicate GaugeLawful(run: Run, point: Point, rules: Settings, rule: Rule, run': Run, alerts: seq<Alert>) {
    && Raised(alerts, rule) == (if rule !in run.fired && PointRaises(run.wait, point, rule) then 1 else 0)
    && (rule in run'.fired <==>
          || PointRaises(run.wait, point, rule)
          || (rule in run.fired && !Retires(run.node, run.turn, run.wait, point, rules, rule)))
  }

  lemma NodeActiveLaw(run: Run, point: Point, rules: Settings, rule: Rule)
    requires point.name == "workhorse.node.active"
    ensures GaugeLawful(run, point, rules, rule, OnNodeActive(run, NodeOf(point.attrs), point.value), [])
  {
  }

  lemma WaitActiveLaw(run: Run, point: Point, rules: Settings, rule: Rule)
    requires point.name == "workhorse.wait.active" && !IsLate(run.wait, point)
    ensures var (run', alerts) := OnWaitActive(run, point.attrs, point.value); GaugeLawful(run, point, rules, rule, run', alerts)
  {
  }

  lemma WaitElapsedLaw(run: Run, point: Point, rules: Settings, rule: Rule)
    requires point.name == "workhorse.wait.elapsed_s" && !IsLate(run.wait, point)
    ensures var (run', alerts) := OnWaitElapsed(run, point.attrs, point.value); GaugeLawful(run, point, rules, rule, run', alerts)
  {
  }

  lemma OtherPointLaw(run: Run, point: Point, now: real, rules: Settings, rule: Rule)
    requires point.name !in {"workhorse.node.active", "workhorse.wait.active", "workhorse.wait.elapsed_s"}
    ensures var (run', alerts) := Gauge(run, point, now, rules); GaugeLawful(run, point, rules, rule, run', alerts)
  {
  }

  lemma GaugeLaw(run: Run, point: Point, now: real, rules: Settings, rule: Rule)
    requires !IsLate(run.wait, point)
    ensures var (run', alerts) := Gauge(run, point, now, rules); GaugeLawful(run, point, rules, rule, run', alerts)
  {
    hide GaugeLawful, OnNodeActive, OnWaitActive, OnWaitElapsed, IsLate;
    if point.name == "workhorse.node.active" {
      NodeActiveLaw(run, point, rules, rule);
    } else if point.name == "workhorse.wait.active" {
      WaitActiveLaw(run, point, rules, rule);
    } else if point.name == "workhorse.wait.elapsed_s" {
      WaitElapsedLaw(run, point, rules, rule);
    } else {
      OtherPointLaw(run, point, now, rules, rule);
    }
  }

  lemma LateExactlyWhen(wait: Wait, point: Point)
    ensures StaleWaitPoint(wait, point) <==> IsLate(wait, point)
  {
  }

  lemma PointLaw(run: Run, point: Point, now: real, rules: Settings, rule: Rule)
    requires IsAccepted(run, PointEvent(point, now))
    ensures var event := PointEvent(point, now);
      var (run', alerts) := FoldPoint(run, point, now, rules);
      && Raised(alerts, rule) == (if Raises(run, event, rules, rule) then 1 else 0)
      && (rule in run'.fired <==>
            || PointRaises(FoundWait(run, event), point, rule)
            || (&& rule in FoundFired(run, event)
                && !Retires(FoundNode(run, event), FoundTurn(run, event), FoundWait(run, event), point, rules, rule)))
  {
    hide Gauge, IsLate, StaleWaitPoint, FoundFired, FoundNode, FoundTurn, FoundWait, PointArrived, Opens, Progresses, Closes;
    var event, arrived := PointEvent(point, now), PointArrived(run, point);
    AcceptedExactlyWhen(run, event);
    PointFinds(run, point, now);
    LateExactlyWhen(arrived.wait, point);
    if !IsLate(arrived.wait, point) {
      GaugeLaw(Stamped(arrived, point.name, now), point, now, rules, rule);
    }
  }

  /**
   * Every rule, but for the CHURN of a span, is raised exactly when what it stands for holds and it is not raised already: a tick raises STALL
   * on silence, WAITING on a long operator wait and STUCK on a turn or node that does not progress, of a run not ended; an
   * accepted span raises ENDED, WATCHDOG and GAVE-UP; an accepted point that is not late raises BLOCKED as it opens an
   * operator's wait. A record that is not accepted raises nothing.
   */
  lemma RaisedExactlyWhen(run: Run, event: Event, rules: Settings, rule: Rule)
    requires rule != CHURN || !event.SpanEvent?
    ensures Raised(FoldEvent(run, event, rules).1, rule) == if Raises(run, event, rules, rule) then 1 else 0
  {
    hide FoldSpan, FoldPoint, FoldTick, FoundFired, FoundWait, PointRaises, SpanRaises, TickRaises;
    match event {
      case TickEvent(now) => TickLaw(run, now, rules, rule); TickFinds(run, now);
      case SpanEvent(span, now) =>
        if IsAccepted(run, event) {
          SpanLaw(run, span, now, rules, rule);
        } else {
          RefusedIsNothing(run, event, rules);
        }
      case PointEvent(point, now) =>
        if IsAccepted(run, event) {
          PointLaw(run, point, now, rules, rule);
        } else {
          RefusedIsNothing(run, event, rules);
        }
    }
  }

  lemma TickFinds(run: Run, now: real)
    ensures FoundFired(run, TickEvent(now)) == run.fired
  {
  }

  lemma RefusedIsNothing(run: Run, event: Event, rules: Settings)
    requires !IsAccepted(run, event)
    ensures FoldEvent(run, event, rules) == (run, [])
  {
    AcceptedExactlyWhen(run, event);
  }

  /**
   * A page stays raised until a record retires it: any record retires STALL, progress retires STUCK, the end of the wait
   * retires BLOCKED and WAITING, a refuel retires CHURN, and a new session or an outlived ending all of them.
   */
  lemma StaysRaisedExactlyWhen(run: Run, event: Event, rules: Settings, rule: Rule)
    requires (rule != CHURN || !event.SpanEvent?) && rule in run.fired && IsAccepted(run, event) && !Raises(run, event, rules, rule)
    ensures rule in FoldEvent(run, event, rules).0.fired <==>
      && rule in FoundFired(run, event)
      && (event.PointEvent? ==>
            !Retires(FoundNode(run, event), FoundTurn(run, event), FoundWait(run, event), event.point, rules, rule)
            || PointRaises(FoundWait(run, event), event.point, rule))
  {
    match event {
      case TickEvent(now) => TickLaw(run, now, rules, rule);
      case SpanEvent(span, now) => SpanLaw(run, span, now, rules, rule);
      case PointEvent(point, now) => PointLaw(run, point, now, rules, rule);
    }
    hide FoldEvent, Retires;
  }

  /** Every alert names its run, and those of CHURN alone a visit. */
  lemma AlertsAreOfTheRun(run: Run, event: Event, rules: Settings)
    ensures var (run', alerts) := FoldEvent(run, event, rules);
      && run'.runId == run.runId && run'.firstSeenTs == run.firstSeenTs
      && forall alert :: alert in alerts ==> alert.runId == run.runId && (alert.visit.Some? <==> alert.rule == CHURN)
  {
    match event {
      case TickEvent(_) =>
      case SpanEvent(span, now) => SpanAlertsAreOfTheRun(run, span, now, rules);
      case PointEvent(point, now) => PointAlertsAreOfTheRun(run, point, now, rules);
    }
    hide FoldSpan, FoldPoint;
  }

  /** Of the run, the alerts only add to the pages, and each names the run; a visit is named by CHURN alone. */
  ghost predicate OnlyPages(run: Run, run': Run, alerts: seq<Alert>) {
    && run' == run.(fired := run'.fired, tally := run'.tally)
    && forall alert :: alert in alerts ==> alert.runId == run.runId && (alert.visit.Some? <==> alert.rule == CHURN)
  }

  lemma FireIfOnlyPages(condition: bool, run: Run, rule: Rule)
    requires rule != CHURN
    ensures OnlyPages(run, FireIf(condition, run, rule, None).0, FireIf(condition, run, rule, None).1)
  {
  }

  lemma VisitOnlyPages(run: Run, span: Span, rules: Settings)
    ensures OnlyPages(run, FoldVisit(run, span, rules).0, FoldVisit(run, span, rules).1)
  {
    hide Observe, CountsAsVisit;
  }

  /** A span that is accepted leaves the run as it found it but for the pages, the tally and, if it ends the run, the ending. */
  lemma SpanOnlyPages(run: Run, span: Span, now: real, rules: Settings)
    requires Accepts(run, span.pid, span.generation)
    ensures var (run', alerts) := FoldSpan(run, span, now, rules);
      OnlyPages(SpanArrived(run, span, now).(ending := run'.ending), run', alerts)
  {
    hide FoldVisit, FireIf, SpanArrived;
    var arrived := SpanArrived(run, span, now);
    if EndsRun(span) {
      FireIsFireIf(arrived.(ending := EndingOf(span, now)), ENDED);
      FireIfOnlyPages(true, arrived.(ending := EndingOf(span, now)), ENDED);
    } else {
      var r1 := FireIf("watchdog_kill" in span.events, arrived, WATCHDOG, None).0;
      var r2 := FireIf(span.node in rules.giveupNodes, r1, GAVE_UP, None).0;
      FireIfOnlyPages("watchdog_kill" in span.events, arrived, WATCHDOG);
      FireIfOnlyPages(span.node in rules.giveupNodes, r1, GAVE_UP);
      VisitOnlyPages(r2, span, rules);
    }
  }

  lemma SpanAlertsAreOfTheRun(run: Run, span: Span, now: real, rules: Settings)
    ensures var (run', alerts) := FoldSpan(run, span, now, rules);
      && run'.runId == run.runId && run'.firstSeenTs == run.firstSeenTs
      && forall alert :: alert in alerts ==> alert.runId == run.runId && (alert.visit.Some? <==> alert.rule == CHURN)
  {
    if Accepts(run, span.pid, span.generation) {
      SpanOnlyPages(run, span, now, rules);
      hide FoldSpan;
    }
  }

  /** The same run by name, and alerts of it that name no visit. */
  ghost predicate OfTheRun(run: Run, run': Run, alerts: seq<Alert>) {
    && run'.runId == run.runId && run'.firstSeenTs == run.firstSeenTs
    && forall alert :: alert in alerts ==> alert.runId == run.runId && alert.visit.None? && alert.rule != CHURN
  }

  lemma WaitAlertsAreOfTheRun(run: Run, attrs: Attrs, value: real)
    ensures OfTheRun(run, OnWaitActive(run, attrs, value).0, OnWaitActive(run, attrs, value).1)
    ensures OfTheRun(run, OnWaitElapsed(run, attrs, value).0, OnWaitElapsed(run, attrs, value).1)
  {
    hide Get;
  }

  lemma NodeAndTurnAreOfTheRun(run: Run, point: Point, node: string, value: real, rules: Settings)
    ensures OfTheRun(run, OnNodeActive(run, node, value), []) && OfTheRun(run, OnTurnPoint(run, point, rules), [])
  {
    hide Get;
  }

  lemma PointAlertsAreOfTheRun(run: Run, point: Point, now: real, rules: Settings)
    ensures OfTheRun(run, FoldPoint(run, point, now, rules).0, FoldPoint(run, point, now, rules).1)
  {
    hide StaleWaitPoint, Get, OnWaitActive, OnWaitElapsed, OnNodeActive, OnTurnPoint;
    if Accepts(run, point.pid, point.generation) {
      var stamped := Stamped(PointArrived(run, point), point.name, now);
      WaitAlertsAreOfTheRun(stamped, point.attrs, point.value);
      NodeAndTurnAreOfTheRun(stamped, point, Get(point.attrs, "node"), point.value, rules);
    }
  }

  // ---- what the fields hold ----

  /** A record the run takes while its session stays as it is. */
  predicate InSession(session: Option<Session>, event: Event) {
    var (pid, generation) := RecordSession(event);
    !event.TickEvent? && (generation.None? || session == Some(Session(pid, generation.value)))
  }

  /** What the latest record of the session that speaks of a field said of it. */
  ghost function Latest<V>(session: Option<Session>, events: seq<Event>, says: Event -> Option<V>, start: V): V
    decreases |events|
  {
    if events == [] then start
    else
      var last := events[|events| - 1];
      if InSession(session, last) && says(last).Some? then says(last).value
      else Latest(session, events[..|events| - 1], says, start)
  }

  ghost predicate IsLatest<V(!new)>(field: Run -> V, says: Event -> Option<V>, rules: Settings) {
    forall run: Run, event: Event :: FoldEvent(run, event, rules).0.session == run.session ==> FollowsLast(field, says, run, event, rules)
  }

  ghost predicate FollowsLast<V>(field: Run -> V, says: Event -> Option<V>, run: Run, event: Event, rules: Settings) {
    field(FoldEvent(run, event, rules).0)
    == if InSession(run.session, event) && says(event).Some? then says(event).value else field(run)
  }

  /** A session never comes back: if it is the same after all events it was the same all along. */
  lemma SessionStaysThroughout(run: Run, events: seq<Event>, rules: Settings, n: nat)
    requires RunInv(run) && n <= |events| && FoldAll(run, events, rules).0.session == run.session
    ensures FoldAll(run, events[..n], rules).0.session == run.session
  {
    hide RunInv;
    assert events == events[..n] + events[n..];
    FoldAllAppend(run, events[..n], events[n..], rules);
    EventsKeep(run, events[..n], rules);
    EventsKeep(FoldAll(run, events[..n], rules).0, events[n..], rules);
  }

  lemma {:induction false} HoldsTheLatest<V(!new)>(
      run: Run, events: seq<Event>, rules: Settings, field: Run -> V, says: Event -> Option<V>)
    requires RunInv(run) && IsLatest(field, says, rules) && FoldAll(run, events, rules).0.session == run.session
    ensures field(FoldAll(run, events, rules).0) == Latest(run.session, events, says, field(run))
    decreases |events|
  {
    hide RunInv, FoldEvent;
    if events != [] {
      var n := |events| - 1;
      var before, last := events[..n], events[n];
      SessionStaysThroughout(run, events, rules, n);
      HoldsTheLatest(run, before, rules, field, says);
      assert events == before + [last];
      FoldAllAppend(run, before, [last], rules);
      var mid := FoldAll(run, before, rules).0;
      OneEvent(mid, last, rules);
      assert FollowsLast(field, says, mid, last, rules);
    }
  }

  lemma OneEvent(run: Run, event: Event, rules: Settings)
    ensures FoldAll(run, [event], rules).0 == FoldEvent(run, event, rules).0
  {
    assert [event][1..] == [];
  }

  function SpanTime(event: Event): Option<real> {
    if event.SpanEvent? then Some(event.now) else None
  }

  function IsBeat(event: Event): bool {
    event.PointEvent?
    && (event.point.name == "workhorse.run.heartbeat" || event.point.name == "workhorse.turn.heartbeat"
        || event.point.name == "workhorse.cap_wait.heartbeat")
  }

  function BeatTime(event: Event): Option<real> {
    if IsBeat(event) then Some(event.now) else None
  }

  function GasLeft(event: Event): Option<Option<real>> {
    if event.PointEvent? && event.point.name == "workhorse.gas" then Some(Some(event.point.value)) else None
  }

  function TurnSays(event: Event): Option<Option<bool>> {
    if event.PointEvent? && event.point.name == "workhorse.turn.active" then Some(Some(event.point.value >= 1.0)) else None
  }

  /**
   * While a session lasts, the times STALL looks at are those of its latest span and heartbeat, the gas is the latest
   * reading, and the turn is active or not as last reported.
   */
  lemma FieldsHoldTheLatest(run: Run, events: seq<Event>, rules: Settings)
    requires RunInv(run) && FoldAll(run, events, rules).0.session == run.session
    ensures var last := FoldAll(run, events, rules).0;
      && last.live.lastSpanTs == Latest(run.session, events, SpanTime, run.live.lastSpanTs)
      && last.live.lastHeartbeatTs == Latest(run.session, events, BeatTime, run.live.lastHeartbeatTs)
      && last.gas == Latest(run.session, events, GasLeft, run.gas)
      && last.turn.active == Latest(run.session, events, TurnSays, run.turn.active)
  {
    hide RunInv, Latest, FoldAll;
    forall r: Run, event: Event | FoldEvent(r, event, rules).0.session == r.session
      ensures FollowsLast((x: Run) => x.live.lastSpanTs, SpanTime, r, event, rules)
      ensures FollowsLast((x: Run) => x.live.lastHeartbeatTs, BeatTime, r, event, rules)
      ensures FollowsLast((x: Run) => x.gas, GasLeft, r, event, rules)
      ensures FollowsLast((x: Run) => x.turn.active, TurnSays, r, event, rules)
    {
      EventSetsFields(r, event, rules);
    }
    hide FollowsLast;
    HoldsTheLatest(run, events, rules, (x: Run) => x.live.lastSpanTs, SpanTime);
    HoldsTheLatest(run, events, rules, (x: Run) => x.live.lastHeartbeatTs, BeatTime);
    HoldsTheLatest(run, events, rules, (x: Run) => x.gas, GasLeft);
    HoldsTheLatest(run, events, rules, (x: Run) => x.turn.active, TurnSays);
  }

  lemma EventSetsFields(run: Run, event: Event, rules: Settings)
    requires FoldEvent(run, event, rules).0.session == run.session
    ensures var next, here := FoldEvent(run, event, rules).0, InSession(run.session, event);
      && next.live.lastSpanTs == (if here && SpanTime(event).Some? then SpanTime(event).value else run.live.lastSpanTs)
      && next.live.lastHeartbeatTs == (if here && BeatTime(event).Some? then BeatTime(event).value else run.live.lastHeartbeatTs)
      && next.gas == (if here && GasLeft(event).Some? then GasLeft(event).value else run.gas)
      && next.turn.active == (if here && TurnSays(event).Some? then TurnSays(event).value else run.turn.active)
  {
    match event {
      case TickEvent(_) =>
      case SpanEvent(span, now) => SpanSetsFields(run, span, now, rules);
      case PointEvent(point, now) => PointSetsFields(run, point, now, rules);
    }
    hide FoldPoint, FoldSpan;
  }

  lemma SpanSetsFields(run: Run, span: Span, now: real, rules: Settings)
    requires FoldSpan(run, span, now, rules).0.session == run.session
    ensures var next := FoldSpan(run, span, now, rules).0;
      && next.gas == run.gas && next.turn == run.turn && next.node == run.node
      && next.live == run.live.(lastSpanTs := if InSession(run.session, SpanEvent(span, now)) then now else run.live.lastSpanTs)
  {
    if Accepts(run, span.pid, span.generation) {
      SpanOnlyPages(run, span, now, rules);
      hide FoldSpan;
    }
  }

  lemma LateIsOfAWait(wait: Wait, point: Point)
    requires StaleWaitPoint(wait, point)
    ensures point.name == "workhorse.wait.active" || point.name == "workhorse.wait.elapsed_s"
  {
  }

  /** A record that leaves the session as it is finds the fields of the session as they are. */
  lemma SameSessionFinds(run: Run, point: Point, now: real, rules: Settings)
    requires FoldPoint(run, point, now, rules).0.session == run.session
    ensures IsAccepted(run, PointEvent(point, now)) <==> Accepts(run, point.pid, point.generation)
    ensures Accepts(run, point.pid, point.generation) <==> InSession(run.session, PointEvent(point, now))
    ensures Accepts(run, point.pid, point.generation) ==>
      var arrived := PointArrived(run, point);
      && arrived.live == run.live && arrived.gas == run.gas && arrived.turn == run.turn && arrived.node == run.node
  {
    hide Gauge, StaleWaitPoint;
    if Accepts(run, point.pid, point.generation) {
      var arrived := PointArrived(run, point);
      GaugeFiresOther(Stamped(arrived, point.name, now), point, now, rules);
    }
  }

  /** What the metric itself sets, of the fields looked at here. */
  ghost predicate SetsFields(run: Run, point: Point, now: real, next: Run) {
    && next.live.lastSpanTs == run.live.lastSpanTs
    && next.live.lastHeartbeatTs == (if IsBeat(PointEvent(point, now)) then now else run.live.lastHeartbeatTs)
    && next.gas == (if point.name == "workhorse.gas" then Some(point.value) else run.gas)
    && next.turn.active == (if point.name == "workhorse.turn.active" then Some(point.value >= 1.0) else run.turn.active)
    && next.turn.idle == (
         if point.name == "workhorse.turn.active" && point.value < 1.0 then 0.0
         else if point.name == "workhorse.turn.idle_s" && run.turn.active != Some(false) then point.value
         else run.turn.idle)
    && next.turn.elapsed == (
         if point.name == "workhorse.turn.active" && point.value < 1.0 then 0.0
         else if point.name == "workhorse.turn.elapsed_s" && run.turn.active != Some(false) then point.value
         else run.turn.elapsed)
  }

  /** The same for the node. */
  ghost predicate SetsNode(was: Node, point: Point, next: Node) {
    var node := NodeOf(point.attrs);
    && next.current == (
         if point.name == "workhorse.run.heartbeat" && node != "" then node
         else if point.name == "workhorse.node.active" && point.value >= 1.0 then node
         else if point.name == "workhorse.node.active" && node == was.current then ""
         else was.current)
    && next.elapsed == (
         if point.name == "workhorse.node.active" && point.value < 1.0 && node == was.current then 0.0
         else if point.name == "workhorse.node.elapsed_s" && (was.current == "" || node == was.current) then point.value
         else was.elapsed)
  }

  lemma WaitSetsNothing(run: Run, attrs: Attrs, value: real)
    ensures OnWaitActive(run, attrs, value).0 == run.(wait := OnWaitActive(run, attrs, value).0.wait, fired := OnWaitActive(run, attrs, value).0.fired)
    ensures OnWaitElapsed(run, attrs, value).0 == run.(wait := OnWaitElapsed(run, attrs, value).0.wait, fired := OnWaitElapsed(run, attrs, value).0.fired)
  {
    hide Get;
  }

  lemma NodeSetsNode(run: Run, point: Point)
    requires point.name == "workhorse.node.active"
    ensures var next := OnNodeActive(run, NodeOf(point.attrs), point.value);
      SetsNode(run.node, point, next.node) && next == run.(node := next.node, wait := next.wait, fired := next.fired)
  {
  }

  lemma GaugeSetsFields(run: Run, point: Point, now: real, rules: Settings)
    ensures var next := Gauge(run, point, now, rules).0;
      SetsFields(run, point, now, next) && SetsNode(run.node, point, next.node)
  {
    assert Get(point.attrs, "node") == NodeOf(point.attrs);
    hide Get, OnWaitActive, OnWaitElapsed, OnNodeActive, NodeOf, SetsFields, SetsNode, OnTurnPoint;
    if point.name == "workhorse.node.active" {
      NodeSetsNode(run, point);
      NoneOfTheFields(run, point, now, Gauge(run, point, now, rules).0);
    } else if point.name == "workhorse.wait.active" || point.name == "workhorse.wait.elapsed_s" {
      WaitSetsNothing(run, point.attrs, point.value);
      NoneOfTheFields(run, point, now, Gauge(run, point, now, rules).0);
      NotTheNode(run, point, Gauge(run, point, now, rules).0);
    } else {
      OtherSetsFields(run, point, now, rules);
    }
  }

  lemma NoneOfTheFields(run: Run, point: Point, now: real, next: Run)
    requires point.name in {"workhorse.node.active", "workhorse.wait.active", "workhorse.wait.elapsed_s"}
    requires next.live == run.live && next.gas == run.gas && next.turn == run.turn
    ensures SetsFields(run, point, now, next)
  {
  }

  lemma NotTheNode(run: Run, point: Point, next: Run)
    requires point.name in {"workhorse.wait.active", "workhorse.wait.elapsed_s"} && next.node == run.node
    ensures SetsNode(run.node, point, next.node)
  {
  }

  lemma TurnSetsTurn(run: Run, point: Point, now: real, rules: Settings)
    requires point.name in {"workhorse.turn.active", "workhorse.turn.idle_s", "workhorse.turn.elapsed_s"}
    ensures var next := OnTurnPoint(run, point, rules);
      SetsFields(run, point, now, next) && SetsNode(run.node, point, next.node)
  {
  }

  lemma OtherTurnPoint(run: Run, point: Point, now: real, rules: Settings)
    requires point.name !in {"workhorse.turn.active", "workhorse.turn.idle_s", "workhorse.turn.elapsed_s"}
    ensures var next := OnTurnPoint(run, point, rules);
      next.live == run.live && next.gas == run.gas && next.node == run.node && next.turn == run.turn
  {
  }

  lemma OtherSetsFields(run: Run, point: Point, now: real, rules: Settings)
    requires point.name !in {"workhorse.node.active", "workhorse.wait.active", "workhorse.wait.elapsed_s"}
    ensures var next := Gauge(run, point, now, rules).0;
      SetsFields(run, point, now, next) && SetsNode(run.node, point, next.node)
  {
    assert Get(point.attrs, "node") == NodeOf(point.attrs);
    hide Get, NodeOf, OnTurnPoint;
    if point.name in {"workhorse.turn.active", "workhorse.turn.idle_s", "workhorse.turn.elapsed_s"} {
      TurnSetsTurn(run, point, now, rules);
    } else {
      OtherTurnPoint(run, point, now, rules);
    }
  }

  /** A point of the session sets what it says, one of another session or a late one of a wait sets none of it. */
  lemma PointSetsFields(run: Run, point: Point, now: real, rules: Settings)
    requires FoldPoint(run, point, now, rules).0.session == run.session
    ensures var next := FoldPoint(run, point, now, rules).0;
      if InSession(run.session, PointEvent(point, now)) then SetsFields(run, point, now, next) && SetsNode(run.node, point, next.node)
      else next == run
  {
    hide Gauge, StaleWaitPoint, PointArrived;
    SameSessionFinds(run, point, now, rules);
    if Accepts(run, point.pid, point.generation) {
      var arrived := PointArrived(run, point);
      if StaleWaitPoint(arrived.wait, point) {
        LateIsOfAWait(arrived.wait, point);
      } else {
        GaugeSetsFields(Stamped(arrived, point.name, now), point, now, rules);
      }
    }
  }

  // ---- turn, node and wait ----

  /** For how long the turn was last said to be idle, unless that was while it was over; nothing once it ended. */
  ghost function IdleOf(session: Option<Session>, events: seq<Event>, start: Turn): real
    decreases |events|
  {
    if events == [] then start.idle
    else
      var before, last := events[..|events| - 1], events[|events| - 1];
      if InSession(session, last) && TurnSays(last) == Some(Some(false)) then 0.0
      else if InSession(session, last) && last.PointEvent? && last.point.name == "workhorse.turn.idle_s"
              && Latest(session, before, TurnSays, start.active) != Some(false) then last.point.value
      else IdleOf(session, before, start)
  }

  /** The node last said to be active, unless that one was then said to be over. */
  ghost function CurrentOf(session: Option<Session>, events: seq<Event>, start: string): string
    decreases |events|
  {
    if events == [] then start
    else
      var before, last := events[..|events| - 1], events[|events| - 1];
      var current := CurrentOf(session, before, start);
      if !InSession(session, last) || !last.PointEvent? then current
      else
        var name, node := last.point.name, NodeOf(last.point.attrs);
        if name == "workhorse.run.heartbeat" && node != "" then node
        else if name == "workhorse.node.active" && last.point.value >= 1.0 then node
        else if name == "workhorse.node.active" && node == current then ""
        else current
  }

  /** For how long the current node was last said to be open. */
  ghost function OpenFor(session: Option<Session>, events: seq<Event>, start: Node): real
    decreases |events|
  {
    if events == [] then start.elapsed
    else
      var before, last := events[..|events| - 1], events[|events| - 1];
      var current := CurrentOf(session, before, start.current);
      if !InSession(session, last) || !last.PointEvent? then OpenFor(session, before, start)
      else
        var name, node := last.point.name, NodeOf(last.point.attrs);
        if name == "workhorse.node.active" && last.point.value < 1.0 && node == current then 0.0
        else if name == "workhorse.node.elapsed_s" && (current == "" || node == current) then last.point.value
        else OpenFor(session, before, start)
  }

  lemma OthersSetNeither(run: Run, event: Event, rules: Settings)
    requires !event.PointEvent? && FoldEvent(run, event, rules).0.session == run.session
    ensures FoldEvent(run, event, rules).0.turn == run.turn && FoldEvent(run, event, rules).0.node == run.node
  {
    if event.SpanEvent? {
      SpanSetsFields(run, event.span, event.now, rules);
      hide FoldSpan;
    }
  }

  /** While a session lasts, what STUCK looks at is what its latest records say of the turn and of the node that is active. */
  lemma {:induction false} TurnAndNodeHold(run: Run, events: seq<Event>, rules: Settings)
    requires RunInv(run) && FoldAll(run, events, rules).0.session == run.session
    ensures var last := FoldAll(run, events, rules).0;
      && last.turn.idle == IdleOf(run.session, events, run.turn)
      && last.node.current == CurrentOf(run.session, events, run.node.current)
      && last.node.elapsed == OpenFor(run.session, events, run.node)
    decreases |events|
  {
    hide RunInv, FoldEvent, FoldPoint;
    if events != [] {
      var n := |events| - 1;
      var before, last := events[..n], events[n];
      SessionStaysThroughout(run, events, rules, n);
      TurnAndNodeHold(run, before, rules);
      FieldsHoldTheLatest(run, before, rules);
      assert events == before + [last];
      FoldAllAppend(run, before, [last], rules);
      var mid := FoldAll(run, before, rules).0;
      OneEvent(mid, last, rules);
      if last.PointEvent? {
        PointIsFoldPoint(mid, last, rules);
        PointSetsFields(mid, last.point, last.now, rules);
      } else {
        OthersSetNeither(mid, last, rules);
        OnlyPointsSayOfTurns(last);
      }
    }
  }

  lemma PointIsFoldPoint(run: Run, event: Event, rules: Settings)
    requires event.PointEvent?
    ensures FoldEvent(run, event, rules) == FoldPoint(run, event.point, event.now, rules)
    ensures event == PointEvent(event.point, event.now)
  {
  }

  lemma OnlyPointsSayOfTurns(event: Event)
    requires !event.PointEvent?
    ensures TurnSays(event).None?
  {
  }

  predicate IsGate(kind: string) {
    kind == "operator" || kind == "machine"
  }

  function Attr(attrs: Attrs, key: string): string {
    if key in attrs then attrs[key] else ""
  }

  /** The wait a point opens: its kind, its series, and the gate it names if it is one of the kinds that have one. */
  ghost predicate IsOpened(was: Wait, point: Point, next: Wait) {
    && next.series == Some(point.attrs) && next.closed == was.closed
    && next.kind == (if WaitKind(point) != "" then WaitKind(point) else "unknown")
    && (IsGate(next.kind) ==>
          next.gatePath == Attr(point.attrs, "gate_path") && next.gateQuestion == Attr(point.attrs, "gate_question"))
    && (!IsGate(next.kind) && point.name == "workhorse.wait.active" ==> next.gatePath == "" && next.gateQuestion == "")
    && (!IsGate(next.kind) && point.name == "workhorse.wait.elapsed_s" ==>
          next.gatePath == was.gatePath && next.gateQuestion == was.gateQuestion)
    && next.elapsed == if point.name == "workhorse.wait.elapsed_s" then point.value else was.elapsed
  }

  ghost predicate IsClosed(was: Wait, next: Wait) {
    next == Wait("", 0.0, None, was.closed + (if was.series.Some? then {was.series.value} else {}), "", "")
  }

  /** What an accepted point does to the wait: nothing if it is late; else it opens, closes or times it, or is about something else. */
  lemma WaitMovesExactly(run: Run, point: Point, now: real, rules: Settings)
    requires IsAccepted(run, PointEvent(point, now))
    ensures var event := PointEvent(point, now);
      var was, next := FoundWait(run, event), FoldPoint(run, point, now, rules).0.wait;
      if IsLate(was, point) then next == was
      else if Opens(was, point) then IsOpened(was, point, next)
      else if Closes(FoundNode(run, event), was, point) then IsClosed(was, next)
      else next == was.(elapsed := if point.name == "workhorse.wait.elapsed_s" && was.kind != "" then point.value else was.elapsed)
  {
    hide IsLate, StaleWaitPoint, FoundFired, FoundNode, FoundTurn, FoundWait, PointArrived, Gauge;
    var event, arrived := PointEvent(point, now), PointArrived(run, point);
    AcceptedExactlyWhen(run, event);
    PointFinds(run, point, now);
    LateExactlyWhen(arrived.wait, point);
    if !IsLate(arrived.wait, point) {
      GaugeMovesWait(Stamped(arrived, point.name, now), point, now, rules);
    }
  }

  /** What the metric itself does to the wait, if it is not late. */
  ghost predicate MovesWait(run: Run, point: Point, next: Wait) {
    var was := run.wait;
    if Opens(was, point) then IsOpened(was, point, next)
    else if Closes(run.node, was, point) then IsClosed(was, next)
    else next == was.(elapsed := if point.name == "workhorse.wait.elapsed_s" && was.kind != "" then point.value else was.elapsed)
  }

  lemma NodeMovesWait(run: Run, point: Point)
    requires point.name == "workhorse.node.active"
    ensures MovesWait(run, point, OnNodeActive(run, NodeOf(point.attrs), point.value).wait)
  {
  }

  lemma WaitPointMovesWait(run: Run, point: Point)
    ensures point.name == "workhorse.wait.active" ==> MovesWait(run, point, OnWaitActive(run, point.attrs, point.value).0.wait)
    ensures point.name == "workhorse.wait.elapsed_s" ==> MovesWait(run, point, OnWaitElapsed(run, point.attrs, point.value).0.wait)
  {
  }

  lemma OthersLeaveTheWait(run: Run, point: Point)
    requires point.name !in {"workhorse.node.active", "workhorse.wait.active", "workhorse.wait.elapsed_s"}
    ensures MovesWait(run, point, run.wait)
  {
  }

  lemma GaugeMovesWait(run: Run, point: Point, now: real, rules: Settings)
    ensures MovesWait(run, point, Gauge(run, point, now, rules).0.wait)
  {
    hide OnNodeActive, OnWaitActive, OnWaitElapsed, MovesWait;
    if point.name == "workhorse.node.active" {
      NodeMovesWait(run, point);
    } else if point.name == "workhorse.wait.active" || point.name == "workhorse.wait.elapsed_s" {
      WaitPointMovesWait(run, point);
    } else {
      OthersLeaveTheWait(run, point);
    }
  }

  /** The first record of a session finds a run that knows nothing but when it was first seen, its last span and its tally. */
  lemma ResumeForgets(run: Run, event: Event, rules: Settings)
    requires IsFirst(run, event)
    ensures var (pid, generation) := RecordSession(event);
      var resumed := FreshRun(run.runId, run.firstSeenTs).(
        session := Some(Session(pid, generation.value)), live := Liveness(run.live.lastSpanTs, 0.0, 0.0, map[]), tally := run.tally);
      FoldEvent(run, event, rules) == FoldEvent(resumed, event, rules)
  {
    hide FoldVisit, Gauge, StaleWaitPoint;
  }

  /** The span that ends a run says how and when. */
  lemma EndsAs(run: Run, span: Span, now: real, rules: Settings)
    requires IsAccepted(run, SpanEvent(span, now)) && EndsRun(span)
    ensures FoldSpan(run, span, now, rules).0.ending == Ending(
      if Attr(span.attrs, "workhorse.terminal") == "" then "ended" else Attr(span.attrs, "workhorse.terminal"),
      if span.endTs == 0.0 then now else span.endTs)
  {
    AcceptedExactlyWhen(run, SpanEvent(span, now));
  }

  /** A refuel forgets how often each node repeated, but not on what work; no other point touches the tally. */
  lemma RefuelForgetsCounts(run: Run, point: Point, now: real, rules: Settings)
    requires IsAccepted(run, PointEvent(point, now))
    ensures FoldPoint(run, point, now, rules).0.tally ==
      if point.name == "workhorse.gas.refuels" then Tally(run.tally.labels, map[]) else run.tally
  {
    hide StaleWaitPoint, Get, OnWaitActive, OnWaitElapsed, OnNodeActive, OnTurnPoint;
    AcceptedExactlyWhen(run, PointEvent(point, now));
    var arrived := PointArrived(run, point);
    var stamped := Stamped(arrived, point.name, now);
    if StaleWaitPoint(arrived.wait, point) {
      LateIsOfAWait(arrived.wait, point);
    } else {
      WaitSetsNothing(stamped, point.attrs, point.value);
      NodeAndTurnKeepTheTally(stamped, point, Get(point.attrs, "node"), point.value, rules);
    }
  }

  lemma NodeAndTurnKeepTheTally(run: Run, point: Point, node: string, value: real, rules: Settings)
    ensures OnNodeActive(run, node, value).tally == run.tally && OnTurnPoint(run, point, rules).tally == run.tally
  {
  }

  /** The times a record finds: of an earlier session only the last span's. */
  function FoundLive(run: Run, event: Event): Liveness {
    if IsFirst(run, event) then Liveness(run.live.lastSpanTs, 0.0, 0.0, map[]) else run.live
  }

  predicate IsTimer(name: string) {
    || name == "workhorse.node.elapsed_s" || name == "workhorse.turn.elapsed_s"
    || name == "workhorse.turn.idle_s" || name == "workhorse.wait.elapsed_s"
  }

  /** Which times an accepted point that is not late moves: its arrival and the latest time named for a heartbeat, its arrival for a timer. */
  lemma PointStampsExactly(run: Run, point: Point, now: real, rules: Settings)
    requires IsAccepted(run, PointEvent(point, now)) && !IsLate(FoundWait(run, PointEvent(point, now)), point)
    ensures var event := PointEvent(point, now);
      var was, next := FoundLive(run, event), FoldPoint(run, point, now, rules).0.live;
      && next.lastSpanTs == was.lastSpanTs
      && next.lastHeartbeatTs == (if IsBeat(event) then now else was.lastHeartbeatTs)
      && next.lastBeatTs == (if IsBeat(event) && point.ts > was.lastBeatTs then point.ts else was.lastBeatTs)
      && next.gaugeTs == if IsTimer(point.name) then was.gaugeTs[point.name := now] else was.gaugeTs
  {
    hide IsLate, StaleWaitPoint, FoundFired, FoundNode, FoundTurn, FoundWait, Gauge;
    var event, arrived := PointEvent(point, now), PointArrived(run, point);
    AcceptedExactlyWhen(run, event);
    PointFinds(run, point, now);
    LateExactlyWhen(arrived.wait, point);
    GaugeMovesLive(Stamped(arrived, point.name, now), point, now, rules);
  }

  lemma GaugeMovesLive(run: Run, point: Point, now: real, rules: Settings)
    ensures Gauge(run, point, now, rules).0.live ==
      if IsBeat(PointEvent(point, now)) then
        run.live.(lastHeartbeatTs := now, lastBeatTs := if point.ts > run.live.lastBeatTs then point.ts else run.live.lastBeatTs)
      else run.live
  {
    hide Get, OnWaitActive, OnWaitElapsed, OnNodeActive, OnTurnPoint;
    WaitSetsNothing(run, point.attrs, point.value);
    NodeAndTurnKeepLive(run, point, Get(point.attrs, "node"), point.value, rules);
  }

  lemma NodeAndTurnKeepLive(run: Run, point: Point, node: string, value: real, rules: Settings)
    ensures OnNodeActive(run, node, value).live == run.live && OnTurnPoint(run, point, rules).live == run.live
  {
  }

  // ---- batches of many runs ----

  /** Each run is kept under its own name. */
  predicate Named(runs: Runs) {
    forall runId :: runId in runs ==> runs[runId].runId == runId
  }

  function PointsOf(points: seq<Point>, runId: string, now: real): seq<Event> {
    if points == [] then []
    else (if points[0].runId == runId then [PointEvent(points[0], now)] else []) + PointsOf(points[1..], runId, now)
  }

  function SpansFor(spans: seq<Span>, runId: string, now: real): seq<Event> {
    if spans == [] then []
    else (if spans[0].runId == runId then [SpanEvent(spans[0], now)] else []) + SpansFor(spans[1..], runId, now)
  }

  function AlertsOf(alerts: seq<Alert>, runId: string): seq<Alert> {
    if alerts == [] then []
    else (if alerts[0].runId == runId then [alerts[0]] else []) + AlertsOf(alerts[1..], runId)
  }

  /** The batch did to one run what its own records do to it, and raised what they raise. */
  ghost predicate DidToRun(runs: Runs, events: seq<Event>, runId: string, now: real, rules: Settings, after: (Runs, seq<Alert>)) {
    var (run, alerts) := FoldAll(RunIn(runs, runId, now), events, rules);
    && AlertsOf(after.1, runId) == alerts
    && (runId in after.0 <==> runId in runs || events != [])
    && (runId in after.0 ==> after.0[runId] == run)
  }

  lemma {:induction false} AlertsOfBoth(a: seq<Alert>, b: seq<Alert>, runId: string)
    ensures AlertsOf(a + b, runId) == AlertsOf(a, runId) + AlertsOf(b, runId)
  {
    if a == [] {
      assert a + b == b;
    } else {
      assert (a + b)[1..] == a[1..] + b && (a + b)[0] == a[0];
      AlertsOfBoth(a[1..], b, runId);
    }
  }

  lemma {:induction false} AlertsOfOneRun(alerts: seq<Alert>, of: string, runId: string)
    requires forall alert :: alert in alerts ==> alert.runId == of
    ensures AlertsOf(alerts, runId) == if of == runId then alerts else []
  {
    if alerts != [] {
      assert alerts[0] in alerts;
      AlertsOfOneRun(alerts[1..], of, runId);
    }
  }

  /** One record of a batch, and what the rest of the batch does to each run after it. */
  lemma RecordThenRest(
      runs: Runs, event: Event, of: string, rest: seq<Event>, runId: string, now: real, rules: Settings, later: (Runs, seq<Alert>))
    requires Named(runs) && of != ""
    requires var run := FoldEvent(RunIn(runs, of, now), event, rules).0; DidToRun(runs[of := run], rest, runId, now, rules, later)
    ensures var (run, alerts) := FoldEvent(RunIn(runs, of, now), event, rules);
      && Named(runs[of := run])
      && DidToRun(runs, (if of == runId then [event] else []) + rest, runId, now, rules, Then(alerts, later))
  {
    hide FoldEvent;
    var start := RunIn(runs, of, now);
    var (run, alerts) := FoldEvent(start, event, rules);
    AlertsAreOfTheRun(start, event, rules);
    AlertsOfOneRun(alerts, of, runId);
    AlertsOfBoth(alerts, later.1, runId);
    if of == runId {
      assert ([event] + rest)[1..] == rest;
      assert RunIn(runs[of := run], runId, now) == run;
    } else {
      assert [] + rest == rest;
      assert RunIn(runs[of := run], runId, now) == RunIn(runs, runId, now);
    }
  }

  lemma NoRecordDoesNothing(runs: Runs, runId: string, now: real, rules: Settings)
    ensures DidToRun(runs, [], runId, now, rules, (runs, []))
  {
  }

  /**
   * However the points of many runs are mixed in a batch, each run's state and alerts are what its own points make of it, in
   * their order; points that name no run do nothing.
   */
  lemma {:induction false} PointsReachTheirRuns(runs: Runs, points: seq<Point>, now: real, rules: Settings, runId: string)
    requires Named(runs) && runId != ""
    ensures DidToRun(runs, PointsOf(points, runId, now), runId, now, rules, PointsSpec(runs, points, now, rules))
    ensures forall other :: other in PointsSpec(runs, points, now, rules).0 ==> other in runs || other != ""
    decreases |points|
  {
    hide FoldPoint, DidToRun;
    if points == [] {
      NoRecordDoesNothing(runs, runId, now, rules);
    } else if points[0].runId == "" {
      PointsReachTheirRuns(runs, points[1..], now, rules, runId);
      assert [] + PointsOf(points[1..], runId, now) == PointsOf(points[1..], runId, now);
    } else {
      var of, event := points[0].runId, PointEvent(points[0], now);
      var run := FoldPoint(RunIn(runs, of, now), points[0], now, rules).0;
      AlertsAreOfTheRun(RunIn(runs, of, now), event, rules);
      PointsReachTheirRuns(runs[of := run], points[1..], now, rules, runId);
      RecordThenRest(
        runs, event, of, PointsOf(points[1..], runId, now), runId, now, rules, PointsSpec(runs[of := run], points[1..], now, rules));
    }
  }

  /** The same of a batch of spans. */
  lemma {:induction false} SpansReachTheirRuns(runs: Runs, spans: seq<Span>, now: real, rules: Settings, runId: string)
    requires Named(runs) && runId != ""
    ensures DidToRun(runs, SpansFor(spans, runId, now), runId, now, rules, SpansSpec(runs, spans, now, rules))
    ensures forall other :: other in SpansSpec(runs, spans, now, rules).0 ==> other in runs || other != ""
    decreases |spans|
  {
    hide FoldSpan, DidToRun;
    if spans == [] {
      NoRecordDoesNothing(runs, runId, now, rules);
    } else if spans[0].runId == "" {
      SpansReachTheirRuns(runs, spans[1..], now, rules, runId);
      assert [] + SpansFor(spans[1..], runId, now) == SpansFor(spans[1..], runId, now);
    } else {
      var of, event := spans[0].runId, SpanEvent(spans[0], now);
      var run := FoldSpan(RunIn(runs, of, now), spans[0], now, rules).0;
      AlertsAreOfTheRun(RunIn(runs, of, now), event, rules);
      SpansReachTheirRuns(runs[of := run], spans[1..], now, rules, runId);
      RecordThenRest(
        runs, event, of, SpansFor(spans[1..], runId, now), runId, now, rules, SpansSpec(runs[of := run], spans[1..], now, rules));
    }
  }
}
