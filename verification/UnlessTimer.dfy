/** "Unless" rules: a check from a parent starts a timer, a check from the unless rule stops
    it, and the state task raises an alert when it has run out. Each locked section is one
    step. */
module UnlessTimer {

  /** The event with the rule's own priority and description. */
  datatype Event = Event(ruleId: nat, priority: nat, alwaysAlert: bool, log: string)

  /** One rule: ids of its parents and of its unless rule, the timeout in seconds, and the
      priority it gives to its alert. */
  datatype Rule = Rule(id: nat, parents: seq<nat>, unlessId: nat, timeout: nat, priority: nat)

  datatype Step =
    | ParentCheck(now: int, event: Event)
    | UnlessCheck
    | Tick(now: int)

  function Updated(rl: Rule, e: Event): Event { e.(priority := rl.priority, ruleId := rl.id) }

  // ----- the definition

  predicate Due(start: int, timeout: nat, now: int) { start + timeout < now }

  /** Step i started the timer, and nothing since then has restarted it, stopped it or found
      it run out. */
  ghost predicate Running(rl: Rule, h: seq<Step>, i: nat) {
    && i < |h| && h[i].ParentCheck?
    && forall j :: i < j < |h| ==> h[j].Tick? && !Due(h[i].now, rl.timeout, h[j].now)
  }

  /** At most one timer runs: that of the latest check. */
  lemma OneTimer(rl: Rule, h: seq<Step>, i: nat, j: nat)
    requires Running(rl, h, i) && Running(rl, h, j)
    ensures i == j
  {
  }

  lemma StillRunning(rl: Rule, h: seq<Step>, s: Step, i: nat)
    requires i < |h|
    ensures Running(rl, h + [s], i) <==> Running(rl, h, i) && s.Tick? && !Due(h[i].now, rl.timeout, s.now)
  {
    var h' := h + [s];
    assert h'[|h|] == s && forall j :: 0 <= j < |h| ==> h'[j] == h[j];
  }

  lemma NewlyRunning(rl: Rule, h: seq<Step>, s: Step)
    ensures Running(rl, h + [s], |h|) <==> s.ParentCheck?
  {
  }

  /** The check whose timer tick k fires, if it fires one: the timer that was running before
      the tick and is due at the tick. */
  ghost predicate Fires(rl: Rule, h: seq<Step>, k: nat, start: nat) {
    k < |h| && h[k].Tick? && Running(rl, h[..k], start) && Due(h[start].now, rl.timeout, h[k].now)
  }

  /** A timer that has fired is not running any more. */
  lemma FiredIsSpent(rl: Rule, h: seq<Step>, k: nat, start: nat, n: nat)
    requires Fires(rl, h, k, start) && k < n <= |h|
    ensures !Running(rl, h[..n], start)
  {
    assert h[..n][k] == h[k] && h[..n][start] == h[start];
  }

  /** At most one alert per trigger, and at most one trigger per alert. */
  lemma FiresOnce(rl: Rule, h: seq<Step>, k: nat, start: nat, k': nat, start': nat)
    requires Fires(rl, h, k, start) && Fires(rl, h, k', start')
    ensures k == k' <==> start == start'
  {
    if k == k' {
      OneTimer(rl, h[..k], start, start');
    } else if start == start' {
      if k < k' {
        FiredIsSpent(rl, h, k, start, k');
      } else {
        FiredIsSpent(rl, h, k', start, k);
      }
    }
  }

  /** The alerts of a history: for every tick that fires, the event of the check that had
      started the timer, if its priority is high enough or it is always wanted. */
  ghost function Alerts(rl: Rule, h: seq<Step>, logPriority: nat): seq<Event> {
    if h == [] then []
    else
      var k := |h| - 1;
      Alerts(rl, h[..k], logPriority) +
      if exists start: nat :: Fires(rl, h, k, start) then
        var start: nat :| Fires(rl, h, k, start);
        var e := Updated(rl, h[start].event);
        if Wanted(e, logPriority) then [e] else []
      else []
  }

  predicate Wanted(e: Event, logPriority: nat) { e.priority >= logPriority || e.alwaysAlert }

  lemma AlertsOfNoTick(rl: Rule, h: seq<Step>, s: Step, logPriority: nat)
    requires !s.Tick?
    ensures Alerts(rl, h + [s], logPriority) == Alerts(rl, h, logPriority)
  {
    assert (h + [s])[..|h|] == h;
  }

  lemma AlertsOfTick(rl: Rule, h: seq<Step>, now: int, start: nat, logPriority: nat)
    requires Running(rl, h, start) && Due(h[start].now, rl.timeout, now)
    ensures var e := Updated(rl, h[start].event);
      Alerts(rl, h + [Tick(now)], logPriority)
        == Alerts(rl, h, logPriority) + if Wanted(e, logPriority) then [e] else []
  {
    var h' := h + [Tick(now)];
    assert h'[..|h|] == h && h'[start] == h[start];
    assert Fires(rl, h', |h|, start);
    forall i: nat | Fires(rl, h', |h|, i) ensures i == start {
      OneTimer(rl, h, i, start);
    }
  }

  lemma AlertsOfIdleTick(rl: Rule, h: seq<Step>, now: int, logPriority: nat)
    requires forall i: nat :: Running(rl, h, i) ==> !Due(h[i].now, rl.timeout, now)
    ensures Alerts(rl, h + [Tick(now)], logPriority) == Alerts(rl, h, logPriority)
  {
    var h' := h + [Tick(now)];
    assert h'[..|h|] == h;
    forall i: nat ensures !Fires(rl, h', |h|, i) {
      if Running(rl, h, i) {
        assert h'[i] == h[i];
      }
    }
  }

  /** A check from a parent started the timer, no check since then restarted or stopped it, no
      tick before this one was late enough, and this one is: the alert has the event's text
      and the rule's id and priority. It is put out if that priority is high enough for the
      log or the event is always wanted. */
  lemma TickAlerts(rl: Rule, h: seq<Step>, now: int, start: nat, logPriority: nat)
    requires start < |h| && h[start].ParentCheck? && now - h[start].now > rl.timeout
    requires forall j :: start < j < |h| ==> h[j].Tick? && h[j].now - h[start].now <= rl.timeout
    ensures var e := h[start].event;
      Alerts(rl, h + [Tick(now)], logPriority) == Alerts(rl, h, logPriority) +
        if rl.priority >= logPriority || e.alwaysAlert then [Event(rl.id, rl.priority, e.alwaysAlert, e.log)] else []
  {
    hide Alerts;
    AlertsOfTick(rl, h, now, start, logPriority);
  }

  /** A later check or an earlier tick that was late enough. */
  ghost predicate Overtaken(rl: Rule, h: seq<Step>, start: nat)
    requires start < |h| && h[start].ParentCheck?
  {
    exists j :: start < j < |h| && (!h[j].Tick? || h[j].now - h[start].now > rl.timeout)
  }

  /** Without such a check the tick puts out nothing, and nothing else does. */
  lemma NothingAlerts(rl: Rule, h: seq<Step>, s: Step, logPriority: nat)
    requires s.Tick? ==> forall start: nat ::
      start < |h| && h[start].ParentCheck? && s.now - h[start].now > rl.timeout ==> Overtaken(rl, h, start)
    ensures Alerts(rl, h + [s], logPriority) == Alerts(rl, h, logPriority)
  {
    hide Alerts;
    if s.Tick? {
      AlertsOfIdleTick(rl, h, s.now, logPriority);
    } else {
      AlertsOfNoTick(rl, h, s, logPriority);
    }
  }

  datatype CheckResult = Handled | UnknownChild

  /** What the map of states keeps for one unless rule. */
  class Timer {
    const rule: Rule
    const logPriority: nat
    /** When the timer was started, 0 when it is not running. */
    var triggered: int
    var timeout: nat
    var event: Event
    var output: seq<Event>
    ghost var history: seq<Step>
    /** The step that started the running timer. */
    ghost var start: nat

    ghost predicate Valid()
      reads this
    {
      && output == Alerts(rule, history, logPriority)
      && (triggered == 0 ==> forall i: nat :: !Running(rule, history, i))
      && (triggered != 0 ==>
           Running(rule, history, start) && history[start].now == triggered && timeout == rule.timeout &&
           event == Updated(rule, history[start].event))
    }

    constructor (rule: Rule, logPriority: nat, event: Event)
      ensures Valid() && this.rule == rule && this.logPriority == logPriority && history == []
    {
      this.rule, this.logPriority := rule, logPriority;
      triggered, timeout, this.event, output := 0, 0, event, [];
      history, start := [], 0;
    }

    /** Whether the event comes from one of the rule's parents. */
    method IsChild(e: Event) returns (isChild: bool)
      ensures isChild <==> e.ruleId in rule.parents
    {
      for i := 0 to |rule.parents|
        invariant e.ruleId !in rule.parents[..i]
      {
        if e.ruleId == rule.parents[i] {
          return true;
        }
      }
      return false;
    }

    /** The check of an unless rule: it never matches, it only starts or stops the timer. */
    method Check(e: Event, now: int) returns (r: CheckResult)
      requires Valid() && now > 0
      modifies this
      ensures Valid() && output == old(output)
      ensures r == if e.ruleId in rule.parents || e.ruleId == rule.unlessId then Handled else UnknownChild
      ensures history == if e.ruleId in rule.parents then old(history) + [ParentCheck(now, e)]
                         else if e.ruleId == rule.unlessId then old(history) + [UnlessCheck]
                         else old(history)
    {
      hide Alerts;
      var isChild := IsChild(e);
      if isChild {
        triggered, timeout, event := now, rule.timeout, Updated(rule, e);
        NewlyRunning(rule, history, ParentCheck(now, e));
        AlertsOfNoTick(rule, history, ParentCheck(now, e), logPriority);
        history, start := history + [ParentCheck(now, e)], |history|;
        r := Handled;
      } else if e.ruleId == rule.unlessId {
        triggered := 0;
        AlertsOfNoTick(rule, history, UnlessCheck, logPriority);
        forall i: nat ensures !Running(rule, history + [UnlessCheck], i) {
          if i < |history| {
            StillRunning(rule, history, UnlessCheck, i);
          }
        }
        history := history + [UnlessCheck];
        r := Handled;
      } else {
        r := UnknownChild;
      }
    }

    /** One look of the state task at this rule: it consumes the trigger exactly when a timer
        is running by the definition and is due, and then puts out the alert. */
    method LookAt(now: int)
      requires Valid()
      modifies this
      ensures Valid() && history == old(history) + [Tick(now)]
      ensures (exists i: nat :: Running(rule, old(history), i) && Due(old(history)[i].now, rule.timeout, now))
          <==> old(triggered) != 0 && triggered == 0
    {
      hide Alerts;
      ghost var h' := history + [Tick(now)];
      forall i: nat | i < |history|
        ensures Running(rule, h', i) <==> Running(rule, history, i) && !Due(history[i].now, rule.timeout, now)
      {
        StillRunning(rule, history, Tick(now), i);
      }
      NewlyRunning(rule, history, Tick(now));
      forall i: nat | triggered != 0 && Running(rule, history, i) ensures i == start {
        OneTimer(rule, history, i, start);
      }
      if triggered != 0 && triggered + timeout < now {
        AlertsOfTick(rule, history, now, start, logPriority);
        triggered := 0;
        if event.priority >= logPriority || event.alwaysAlert {
          output := output + [event];
        }
      } else {
        AlertsOfIdleTick(rule, history, now, logPriority);
        if triggered != 0 {
          assert h'[start] == history[start];
        }
      }
      history := h';
    }
  }
}
