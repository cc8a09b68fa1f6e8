/**
 * groom/groom/alerts.py: the telemetry state of each run, folded from spans, metric points and clock ticks.
 *
 * `Run` is the value of one run's fields; the class `RunTelemetry` holds them and is updated in place. What only
 * labels or prices a run (workflow, repo, branch, pid, activity, backend) is left out, and an alert carries its
 * rule, and for CHURN the visit that tipped it, instead of its text.
 */
module RunTelemetry {
  import opened Wrappers
  import opened Text
  import opened Churn

  // ---- values ----

  datatype Rule = STALL | STUCK | BLOCKED | WAITING | CHURN | WATCHDOG | GAVE_UP | ENDED

  datatype Alert = Alert(runId: string, rule: Rule, visit: Option<Visit>)

  datatype Settings = Settings(stallAfter: real, stuckAfter: real, waitAfter: real, giveupNodes: set<string>, churnRepeats: int)

  datatype Session = Session(pid: int, generation: int)

  /** The OTel identity of a wait: every attribute of the point. */
  type Series = map<string, string>

  datatype Point = Point(runId: string, name: string, value: real, ts: real, generation: Option<int>, pid: int, attrs: Attrs)

  datatype Liveness = Liveness(lastSpanTs: real, lastHeartbeatTs: real, lastBeatTs: real, gaugeTs: map<string, real>)

  datatype Node = Node(current: string, elapsed: real)

  datatype Turn = Turn(active: Option<bool>, idle: real, elapsed: real)

  datatype Wait = Wait(
    kind: string, elapsed: real, series: Option<Series>, closed: set<Series>, gatePath: string, gateQuestion: string)

  datatype Ending = Ending(terminal: string, ts: real)

  datatype Tally = Tally(labels: map<string, Signature>, counts: map<string, nat>)

  datatype Run = Run(
    runId: string, firstSeenTs: real, live: Liveness, node: Node, turn: Turn, wait: Wait,
    session: Option<Session>, gas: Option<real>, ending: Ending, tally: Tally, fired: set<Rule>)

  const QUIET := Liveness(0.0, 0.0, 0.0, map[])
  const NO_NODE := Node("", 0.0)
  const NO_TURN := Turn(None, 0.0, 0.0)
  const NO_WAIT := Wait("", 0.0, None, {}, "", "")
  const NO_ENDING := Ending("", 0.0)

  function FreshRun(runId: string, now: real): Run {
    Run(runId, now, QUIET, NO_NODE, NO_TURN, NO_WAIT, None, None, NO_ENDING, Tally(map[], map[]), {})
  }

  function Get(attrs: Attrs, key: string): string {
    if key in attrs then attrs[key] else ""
  }

  function Max(a: real, b: real): real {
    if a >= b then a else b
  }

  const LIVENESS_METRICS := {"workhorse.run.heartbeat", "workhorse.turn.heartbeat", "workhorse.cap_wait.heartbeat"}

  const ELAPSED_GAUGES :=
    {"workhorse.node.elapsed_s", "workhorse.turn.elapsed_s", "workhorse.turn.idle_s", "workhorse.wait.elapsed_s"}

  // ---- one run, as functions of its value ----

  /** A resume: what belonged to the session before is forgotten; the last span's time and the churn tally are not. */
  function NewSession(run: Run, session: Session): Run {
    run.(
      session := Some(session), live := QUIET.(lastSpanTs := run.live.lastSpanTs), node := NO_NODE, turn := NO_TURN,
      wait := NO_WAIT, gas := None, ending := NO_ENDING, fired := {})
  }

  predicate Accepts(run: Run, pid: int, generation: Option<int>) {
    || generation.None?
    || run.session == Some(Session(pid, generation.value))
    || run.session.None?
    || generation.value > run.session.value.generation
  }

  /** The run after a record of an accepted session. */
  function Accepted(run: Run, pid: int, generation: Option<int>): Run
    requires Accepts(run, pid, generation)
  {
    if generation.None? || run.session == Some(Session(pid, generation.value)) then run
    else NewSession(run, Session(pid, generation.value))
  }

  function Discard(run: Run, rule: Rule): Run {
    run.(fired := run.fired - {rule})
  }

  function ClearStaleTerminal(run: Run, ts: real): Run {
    if run.session.None? && run.ending.terminal != "" && ts > run.ending.ts then
      run.(ending := NO_ENDING, fired := {})
    else run
  }

  function Fire(run: Run, rule: Rule, visit: Option<Visit>): (Run, seq<Alert>) {
    if rule in run.fired then (run, [])
    else (run.(fired := run.fired + {rule}), [Alert(run.runId, rule, visit)])
  }

  function FireIf(condition: bool, run: Run, rule: Rule, visit: Option<Visit>): (Run, seq<Alert>) {
    if condition then Fire(run, rule, visit) else (run, [])
  }

  /** A wait that is over: its series is remembered. */
  function ClosedWait(wait: Wait): Wait {
    NO_WAIT.(closed := if wait.series.Some? then wait.closed + {wait.series.value} else wait.closed)
  }

  function CloseWait(run: Run): Run {
    run.(wait := ClosedWait(run.wait), fired := run.fired - {BLOCKED, WAITING})
  }

  /** The run when a span of an accepted session is folded in, up to the rules. */
  function SpanArrived(run: Run, span: Span, now: real): Run
    requires Accepts(run, span.pid, span.generation)
  {
    var alive := Discard(Accepted(run, span.pid, span.generation), STALL);
    ClearStaleTerminal(alive.(live := alive.live.(lastSpanTs := now)), span.endTs)
  }

  function FoldVisit(run: Run, span: Span, rules: Settings): (Run, seq<Alert>) {
    if !CountsAsVisit(span) then (run, [])
    else
      var seen := Observe(run.tally.labels, run.tally.counts, span.node, span.attrs);
      var tallied := run.(
        tally := Tally(seen.labels, seen.counts),
        fired := if seen.moved then run.fired - {CHURN} else run.fired);
      FireIf(seen.repeats >= rules.churnRepeats, tallied, CHURN, Some((span, seen.repeats)))
  }

  function EndingOf(span: Span, now: real): Ending {
    var terminal := Get(span.attrs, "workhorse.terminal");
    Ending(if terminal != "" then terminal else "ended", if span.endTs != 0.0 then span.endTs else now)
  }

  function FoldSpan(run: Run, span: Span, now: real, rules: Settings): (Run, seq<Alert>) {
    if !Accepts(run, span.pid, span.generation) then (run, [])
    else
      var arrived := SpanArrived(run, span, now);
      if StartsWith(span.name, "run:") then Fire(arrived.(ending := EndingOf(span, now)), ENDED, None)
      else
        var (r1, a1) := FireIf("watchdog_kill" in span.events, arrived, WATCHDOG, None);
        var (r2, a2) := FireIf(span.node in rules.giveupNodes, r1, GAVE_UP, None);
        var (r3, a3) := FoldVisit(r2, span, rules);
        (r3, a1 + a2 + a3)
  }

  function PointArrived(run: Run, point: Point): Run
    requires Accepts(run, point.pid, point.generation)
  {
    ClearStaleTerminal(Discard(Accepted(run, point.pid, point.generation), STALL), point.ts)
  }

  /** A late point of a wait that is over, or of another wait than the open one. */
  predicate StaleWaitPoint(wait: Wait, point: Point) {
    && Get(point.attrs, "wait_kind") != ""
    && (|| (&& wait.series.Some? && point.attrs != wait.series.value
            && (point.name == "workhorse.wait.elapsed_s" || (point.name == "workhorse.wait.active" && point.value < 1.0)))
        || (&& ((point.name == "workhorse.wait.active" && point.value >= 1.0) || point.name == "workhorse.wait.elapsed_s")
            && point.attrs in wait.closed))
  }

  predicate Gated(kind: string) {
    kind == "operator" || kind == "machine"
  }

  function OnNodeActive(run: Run, node: string, value: real): Run {
    if value >= 1.0 then
      var moved :=
        if run.node.current == node then run
        else
          var unstuck := Discard(run, STUCK);
          var waitNode := if run.wait.series.Some? then Get(run.wait.series.value, "node") else "";
          if run.wait.kind != "" && waitNode != "" && waitNode != node then CloseWait(unstuck) else unstuck;
      moved.(node := run.node.(current := node))
    else if run.node.current == node then Discard(run, STUCK).(node := NO_NODE)
    else run
  }

  function OpenWait(wait: Wait, attrs: Attrs, kind: string, keepGate: bool): Wait {
    wait.(
      series := Some(attrs), kind := kind,
      gatePath := if Gated(kind) then Get(attrs, "gate_path") else if keepGate then wait.gatePath else "",
      gateQuestion := if Gated(kind) then Get(attrs, "gate_question") else if keepGate then wait.gateQuestion else "")
  }

  function OnWaitActive(run: Run, attrs: Attrs, value: real): (Run, seq<Alert>) {
    if value >= 1.0 then
      var kind := if Get(attrs, "wait_kind") != "" then Get(attrs, "wait_kind") else "unknown";
      var waiting := Discard(run, STUCK).(wait := OpenWait(run.wait, attrs, kind, false));
      FireIf(kind == "operator", waiting, BLOCKED, None)
    else (CloseWait(run), [])
  }

  function OnWaitElapsed(run: Run, attrs: Attrs, value: real): (Run, seq<Alert>) {
    var kind := Get(attrs, "wait_kind");
    if run.wait.kind == "" && kind != "" then
      var waiting := Discard(run, STUCK).(wait := OpenWait(run.wait, attrs, kind, true));
      var (fired, alerts) := FireIf(kind == "operator", waiting, BLOCKED, None);
      (fired.(wait := fired.wait.(elapsed := value)), alerts)
    else if run.wait.kind != "" then (run.(wait := run.wait.(elapsed := value)), [])
    else (run, [])
  }

  function OnTurnActive(run: Run, value: real): Run {
    if value >= 1.0 then run.(turn := run.turn.(active := Some(true)))
    else Discard(run, STUCK).(turn := Turn(Some(false), 0.0, 0.0))
  }

  function OnTurnElapsed(run: Run, value: real): Run {
    if run.turn.active == Some(false) then run else run.(turn := run.turn.(elapsed := value))
  }

  function OnTurnIdle(run: Run, value: real, rules: Settings): Run {
    if run.turn.active == Some(false) then run
    else if value <= rules.stuckAfter then Discard(run, STUCK).(turn := run.turn.(idle := value))
    else run.(turn := run.turn.(idle := value))
  }

  function OnTurnPoint(run: Run, point: Point, rules: Settings): Run {
    if point.name == "workhorse.turn.active" then OnTurnActive(run, point.value)
    else if point.name == "workhorse.turn.elapsed_s" then OnTurnElapsed(run, point.value)
    else if point.name == "workhorse.turn.idle_s" then OnTurnIdle(run, point.value, rules)
    else run
  }

  function OnHeartbeat(run: Run, point: Point, now: real): Run {
    var node := Get(point.attrs, "node");
    run.(
      live := run.live.(lastHeartbeatTs := now, lastBeatTs := Max(run.live.lastBeatTs, point.ts)),
      node := if point.name == "workhorse.run.heartbeat" && node != "" then run.node.(current := node) else run.node)
  }

  /** The metric's own effect, once the point has arrived and is not stale. */
  function Gauge(run: Run, point: Point, now: real, rules: Settings): (Run, seq<Alert>) {
    var node, value := Get(point.attrs, "node"), point.value;
    if point.name in LIVENESS_METRICS then (OnHeartbeat(run, point, now), [])
    else if point.name == "workhorse.gas" then (run.(gas := Some(value)), [])
    else if point.name == "workhorse.gas.refuels" then
      (Discard(run, CHURN).(tally := run.tally.(counts := map[])), [])
    else if point.name == "workhorse.node.active" then (OnNodeActive(run, node, value), [])
    else if point.name == "workhorse.node.elapsed_s" then
      (if run.node.current == "" || run.node.current == node then run.(node := run.node.(elapsed := value)) else run, [])
    else if point.name == "workhorse.wait.active" then OnWaitActive(run, point.attrs, value)
    else if point.name == "workhorse.wait.elapsed_s" then OnWaitElapsed(run, point.attrs, value)
    else (OnTurnPoint(run, point, rules), [])
  }

  function Stamped(run: Run, name: string, now: real): Run {
    if name in ELAPSED_GAUGES then run.(live := run.live.(gaugeTs := run.live.gaugeTs[name := now])) else run
  }

  function FoldPoint(run: Run, point: Point, now: real, rules: Settings): (Run, seq<Alert>) {
    if !Accepts(run, point.pid, point.generation) then (run, [])
    else
      var arrived := PointArrived(run, point);
      if StaleWaitPoint(arrived.wait, point) then (arrived, [])
      else Gauge(Stamped(arrived, point.name, now), point, now, rules)
  }

  /** `check_time_rules` for one run. */
  function FoldTick(run: Run, now: real, rules: Settings): (Run, seq<Alert>) {
    var lastAlive := Max(run.live.lastSpanTs, Max(run.live.lastHeartbeatTs, run.firstSeenTs));
    if run.ending.terminal != "" then (run, [])
    else if now - lastAlive > rules.stallAfter then Fire(run, STALL, None)
    else if run.wait.kind != "" then
      FireIf(run.wait.kind == "operator" && run.wait.elapsed > rules.waitAfter, run, WAITING, None)
    else if run.turn.active == Some(true) && run.turn.idle > rules.stuckAfter then Fire(run, STUCK, None)
    else
      FireIf(run.turn.active != Some(true) && run.node.current != "" && run.node.elapsed > rules.stuckAfter, run, STUCK, None)
  }

  // ---- the hot cache, as functions of its value ----

  type Runs = map<string, Run>

  function RunIn(runs: Runs, runId: string, now: real): Run {
    if runId in runs then runs[runId] else FreshRun(runId, now)
  }

  /** Alerts raised before what `rest` leaves. */
  function Then(alerts: seq<Alert>, rest: (Runs, seq<Alert>)): (Runs, seq<Alert>) {
    (rest.0, alerts + rest.1)
  }

  lemma ThenTwice(a: seq<Alert>, b: seq<Alert>, rest: (Runs, seq<Alert>))
    ensures Then(a, Then(b, rest)) == Then(a + b, rest)
  {
    assert a + (b + rest.1) == a + b + rest.1;
  }

  function SpansSpec(runs: Runs, spans: seq<Span>, now: real, rules: Settings): (Runs, seq<Alert>)
    decreases |spans|
  {
    if spans == [] then (runs, [])
    else if spans[0].runId == "" then SpansSpec(runs, spans[1..], now, rules)
    else
      var (run, alerts) := FoldSpan(RunIn(runs, spans[0].runId, now), spans[0], now, rules);
      Then(alerts, SpansSpec(runs[spans[0].runId := run], spans[1..], now, rules))
  }

  function PointsSpec(runs: Runs, points: seq<Point>, now: real, rules: Settings): (Runs, seq<Alert>)
    decreases |points|
  {
    if points == [] then (runs, [])
    else if points[0].runId == "" then PointsSpec(runs, points[1..], now, rules)
    else
      var (run, alerts) := FoldPoint(RunIn(runs, points[0].runId, now), points[0], now, rules);
      Then(alerts, PointsSpec(runs[points[0].runId := run], points[1..], now, rules))
  }

  // ---- the fields, updated in place ----

  /** One run's telemetry, its fields grouped by what they describe. */
  class RunTelemetry {
    const runId: string
    const firstSeenTs: real
    var live: Liveness
    var node: Node
    var turn: Turn
    var wait: Wait
    var session: Option<Session>
    var gas: Option<real>
    var ending: Ending
    var tally: Tally
    var fired: set<Rule>

    constructor (runId: string, now: real)
      ensures View() == FreshRun(runId, now)
    {
      this.runId, firstSeenTs := runId, now;
      live, node, turn, wait, ending := QUIET, NO_NODE, NO_TURN, NO_WAIT, NO_ENDING;
      session, gas, tally, fired := None, None, Tally(map[], map[]), {};
    }

    function View(): Run
      reads this
    {
      Run(runId, firstSeenTs, live, node, turn, wait, session, gas, ending, tally, fired)
    }

    method AcceptSession(pid: int, generation: Option<int>) returns (accepted: bool)
      modifies this
      ensures accepted == Accepts(old(View()), pid, generation)
      ensures View() == if accepted then Accepted(old(View()), pid, generation) else old(View())
    {
      if generation.None? {
        return true;
      }
      var incoming := Session(pid, generation.value);
      if session == Some(incoming) {
        return true;
      }
      if session.Some? && incoming.generation <= session.value.generation {
        return false;
      }
      session := Some(incoming);
      node, turn, wait, ending := NO_NODE, NO_TURN, NO_WAIT, NO_ENDING;
      live := QUIET.(lastSpanTs := live.lastSpanTs);
      gas := None;
      fired := {};
      accepted := true;
    }

    method ClearStale(ts: real)
      modifies this
      ensures View() == ClearStaleTerminal(old(View()), ts)
    {
      if session.None? && ending.terminal != "" && ts > ending.ts {
        ending, fired := NO_ENDING, {};
      }
    }

    method FireRule(rule: Rule, visit: Option<Visit>) returns (alerts: seq<Alert>)
      modifies this`fired
      ensures (View(), alerts) == Fire(old(View()), rule, visit)
    {
      if rule in fired {
        return [];
      }
      fired := fired + {rule};
      alerts := [Alert(runId, rule, visit)];
    }

    method CloseOpenWait()
      modifies this`wait, this`fired
      ensures View() == CloseWait(old(View()))
    {
      var closed := wait.closed;
      if wait.series.Some? {
        closed := closed + {wait.series.value};
      }
      wait := NO_WAIT.(closed := closed);
      fired := fired - {BLOCKED, WAITING};
    }

    method TallyVisit(span: Span, rules: Settings) returns (alerts: seq<Alert>)
      modifies this`tally, this`fired
      ensures (View(), alerts) == FoldVisit(old(View()), span, rules)
    {
      alerts := [];
      if CountsAsVisit(span) {
        var seen := Observe(tally.labels, tally.counts, span.node, span.attrs);
        tally := Tally(seen.labels, seen.counts);
        if seen.moved {
          fired := fired - {CHURN};
        }
        if seen.repeats >= rules.churnRepeats {
          alerts := FireRule(CHURN, Some((span, seen.repeats)));
        }
      }
    }

    method IngestSpan(span: Span, now: real, rules: Settings) returns (alerts: seq<Alert>)
      modifies this
      ensures (View(), alerts) == FoldSpan(old(View()), span, now, rules)
    {
      var accepted := AcceptSession(span.pid, span.generation);
      if !accepted {
        return [];
      }
      fired := fired - {STALL};
      live := live.(lastSpanTs := now);
      ClearStale(span.endTs);
      if StartsWith(span.name, "run:") {
        ending := EndingOf(span, now);
        alerts := FireRule(ENDED, None);
        return;
      }
      var killed: seq<Alert>, gaveUp: seq<Alert> := [], [];
      if "watchdog_kill" in span.events {
        killed := FireRule(WATCHDOG, None);
      }
      if span.node in rules.giveupNodes {
        gaveUp := FireRule(GAVE_UP, None);
      }
      var churned := TallyVisit(span, rules);
      alerts := killed + gaveUp + churned;
    }

    method StartWait(attrs: Attrs, kind: string, keepGate: bool) returns (alerts: seq<Alert>)
      modifies this`wait, this`fired
      ensures (View(), alerts) ==
        FireIf(kind == "operator", Discard(old(View()), STUCK).(wait := OpenWait(old(wait), attrs, kind, keepGate)), BLOCKED, None)
    {
      wait := OpenWait(wait, attrs, kind, keepGate);
      fired := fired - {STUCK};
      alerts := [];
      if wait.kind == "operator" {
        alerts := FireRule(BLOCKED, None);
      }
    }

    method IngestWaitActive(attrs: Attrs, value: real) returns (alerts: seq<Alert>)
      modifies this`wait, this`fired
      ensures (View(), alerts) == OnWaitActive(old(View()), attrs, value)
    {
      alerts := [];
      if value >= 1.0 {
        var incoming := Get(attrs, "wait_kind");
        alerts := StartWait(attrs, if incoming != "" then incoming else "unknown", false);
      } else {
        CloseOpenWait();
      }
    }

    method IngestWaitElapsed(attrs: Attrs, value: real) returns (alerts: seq<Alert>)
      modifies this`wait, this`fired
      ensures (View(), alerts) == OnWaitElapsed(old(View()), attrs, value)
    {
      alerts := [];
      var incoming := Get(attrs, "wait_kind");
      if wait.kind == "" && incoming != "" {
        alerts := StartWait(attrs, incoming, true);
      }
      if wait.kind != "" {
        wait := wait.(elapsed := value);
      }
    }

    method IngestTurnPoint(point: Point, rules: Settings)
      modifies this`turn, this`fired
      ensures View() == OnTurnPoint(old(View()), point, rules)
    {
      if point.name == "workhorse.turn.active" {
        turn := turn.(active := Some(point.value >= 1.0));
        if turn.active == Some(false) {
          turn := turn.(idle := 0.0, elapsed := 0.0);
          fired := fired - {STUCK};
        }
      } else if point.name == "workhorse.turn.elapsed_s" {
        if turn.active != Some(false) {
          turn := turn.(elapsed := point.value);
        }
      } else if point.name == "workhorse.turn.idle_s" {
        if turn.active != Some(false) {
          turn := turn.(idle := point.value);
          if point.value <= rules.stuckAfter {
            fired := fired - {STUCK};
          }
        }
      }
    }

    method IngestNodeActive(active: string, value: real)
      modifies this`node, this`wait, this`fired
      ensures View() == OnNodeActive(old(View()), active, value)
    {
      if value >= 1.0 {
        if node.current != active {
          fired := fired - {STUCK};
          var waitNode := if wait.series.Some? then Get(wait.series.value, "node") else "";
          if wait.kind != "" && waitNode != "" && waitNode != active {
            CloseOpenWait();
          }
        }
        node := node.(current := active);
      } else if node.current == active {
        node := NO_NODE;
        fired := fired - {STUCK};
      }
    }

    method IngestGauge(point: Point, now: real, rules: Settings) returns (alerts: seq<Alert>)
      modifies this
      ensures (View(), alerts) == Gauge(old(View()), point, now, rules)
    {
      alerts := [];
      var named := Get(point.attrs, "node");
      if point.name in LIVENESS_METRICS {
        live := live.(lastHeartbeatTs := now, lastBeatTs := Max(live.lastBeatTs, point.ts));
        if point.name == "workhorse.run.heartbeat" && named != "" {
          node := node.(current := named);
        }
      } else if point.name == "workhorse.gas" {
        gas := Some(point.value);
      } else if point.name == "workhorse.gas.refuels" {
        tally := tally.(counts := map[]);
        fired := fired - {CHURN};
      } else if point.name == "workhorse.node.active" {
        IngestNodeActive(named, point.value);
      } else if point.name == "workhorse.node.elapsed_s" {
        if node.current == "" || node.current == named {
          node := node.(elapsed := point.value);
        }
      } else if point.name == "workhorse.wait.active" {
        alerts := IngestWaitActive(point.attrs, point.value);
      } else if point.name == "workhorse.wait.elapsed_s" {
        alerts := IngestWaitElapsed(point.attrs, point.value);
      } else {
        IngestTurnPoint(point, rules);
      }
    }

    method IngestPoint(point: Point, now: real, rules: Settings) returns (alerts: seq<Alert>)
      modifies this
      ensures (View(), alerts) == FoldPoint(old(View()), point, now, rules)
    {
      var accepted := AcceptSession(point.pid, point.generation);
      if !accepted {
        return [];
      }
      fired := fired - {STALL};
      ClearStale(point.ts);
      if StaleWaitPoint(wait, point) {
        return [];
      }
      if point.name in ELAPSED_GAUGES {
        live := live.(gaugeTs := live.gaugeTs[point.name := now]);
      }
      alerts := IngestGauge(point, now, rules);
    }

    method CheckTimeRules(now: real, rules: Settings) returns (alerts: seq<Alert>)
      modifies this`fired
      ensures (View(), alerts) == FoldTick(old(View()), now, rules)
    {
      alerts := [];
      if ending.terminal != "" {
        return;
      }
      var silence := now - Max(live.lastSpanTs, Max(live.lastHeartbeatTs, firstSeenTs));
      if silence > rules.stallAfter {
        alerts := FireRule(STALL, None);
      } else if wait.kind != "" {
        if wait.kind == "operator" && wait.elapsed > rules.waitAfter {
          alerts := FireRule(WAITING, None);
        }
      } else if turn.active == Some(true) && turn.idle > rules.stuckAfter {
        alerts := FireRule(STUCK, None);
      } else if turn.active != Some(true) && node.current != "" && node.elapsed > rules.stuckAfter {
        alerts := FireRule(STUCK, None);
      }
    }
  }

  /** `state.RUNS`: one telemetry object per run id. `views` is their values. */
  class HotCache {
    var runs: map<string, RunTelemetry>
    ghost var views: Runs

    constructor ()
      ensures Valid() && runs == map[] && views == map[]
    {
      runs, views := map[], map[];
    }

    ghost predicate Valid()
      reads this, runs.Values
    {
      && views.Keys == runs.Keys
      && forall id :: id in runs ==> runs[id].runId == id && runs[id].View() == views[id]
    }

    method RunFor(runId: string, now: real) returns (run: RunTelemetry)
      requires Valid()
      modifies this
      ensures Valid() && runId in runs && runs[runId] == run
      ensures fresh(runs.Values - old(runs.Values))
      ensures views == old(views)[runId := RunIn(old(views), runId, now)]
    {
      if runId !in runs {
        run := new RunTelemetry(runId, now);
        runs, views := runs[runId := run], views[runId := run.View()];
      } else {
        run := runs[runId];
      }
    }

    method IngestSpanInto(run: RunTelemetry, span: Span, now: real, rules: Settings) returns (alerts: seq<Alert>)
      requires Valid() && span.runId in runs && runs[span.runId] == run
      modifies run, this`views
      ensures Valid()
      ensures var (last, raised) := FoldSpan(old(views)[span.runId], span, now, rules);
        views == old(views)[span.runId := last] && alerts == raised
    {
      hide FoldSpan, RunTelemetry.View;
      alerts := run.IngestSpan(span, now, rules);
      views := views[span.runId := run.View()];
    }

    method IngestOneSpan(span: Span, now: real, rules: Settings) returns (alerts: seq<Alert>)
      requires Valid()
      modifies this, runs.Values
      ensures Valid() && fresh(runs.Values - old(runs.Values))
      ensures var (run, raised) := FoldSpan(RunIn(old(views), span.runId, now), span, now, rules);
        views == old(views)[span.runId := run] && alerts == raised
    {
      hide FoldSpan, RunIn;
      var run := RunFor(span.runId, now);
      alerts := IngestSpanInto(run, span, now, rules);
    }

    method IngestPointInto(run: RunTelemetry, point: Point, now: real, rules: Settings) returns (alerts: seq<Alert>)
      requires Valid() && point.runId in runs && runs[point.runId] == run
      modifies run, this`views
      ensures Valid()
      ensures var (last, raised) := FoldPoint(old(views)[point.runId], point, now, rules);
        views == old(views)[point.runId := last] && alerts == raised
    {
      hide FoldPoint, RunTelemetry.View;
      alerts := run.IngestPoint(point, now, rules);
      views := views[point.runId := run.View()];
    }

    method IngestOnePoint(point: Point, now: real, rules: Settings) returns (alerts: seq<Alert>)
      requires Valid()
      modifies this, runs.Values
      ensures Valid() && fresh(runs.Values - old(runs.Values))
      ensures var (run, raised) := FoldPoint(RunIn(old(views), point.runId, now), point, now, rules);
        views == old(views)[point.runId := run] && alerts == raised
    {
      hide FoldPoint, RunIn;
      var run := RunFor(point.runId, now);
      alerts := IngestPointInto(run, point, now, rules);
    }

    method IngestSpans(spans: seq<Span>, now: real, rules: Settings) returns (alerts: seq<Alert>)
      requires Valid()
      modifies this, runs.Values
      ensures Valid() && fresh(runs.Values - old(runs.Values))
      ensures (views, alerts) == SpansSpec(old(views), spans, now, rules)
    {
      hide FoldSpan;
      alerts := [];
      ghost var whole := SpansSpec(views, spans, now, rules);
      assert spans[0..] == spans && [] + whole.1 == whole.1;
      for i := 0 to |spans|
        invariant Valid() && fresh(runs.Values - old(runs.Values))
        invariant Then(alerts, SpansSpec(views, spans[i..], now, rules)) == whole
      {
        assert spans[i..][1..] == spans[i + 1..];
        if spans[i].runId != "" {
          var more := IngestOneSpan(spans[i], now, rules);
          ThenTwice(alerts, more, SpansSpec(views, spans[i + 1..], now, rules));
          alerts := alerts + more;
        }
      }
      assert spans[|spans|..] == [] && alerts + [] == alerts;
    }

    method IngestMetrics(points: seq<Point>, now: real, rules: Settings) returns (alerts: seq<Alert>)
      requires Valid()
      modifies this, runs.Values
      ensures Valid() && fresh(runs.Values - old(runs.Values))
      ensures (views, alerts) == PointsSpec(old(views), points, now, rules)
    {
      hide FoldPoint;
      alerts := [];
      ghost var whole := PointsSpec(views, points, now, rules);
      assert points[0..] == points && [] + whole.1 == whole.1;
      for i := 0 to |points|
        invariant Valid() && fresh(runs.Values - old(runs.Values))
        invariant Then(alerts, PointsSpec(views, points[i..], now, rules)) == whole
      {
        assert points[i..][1..] == points[i + 1..];
        if points[i].runId != "" {
          var more := IngestOnePoint(points[i], now, rules);
          ThenTwice(alerts, more, PointsSpec(views, points[i + 1..], now, rules));
          alerts := alerts + more;
        }
      }
      assert points[|points|..] == [] && alerts + [] == alerts;
    }
  }
}
