/** The start-once monitor: any number of threads call ensure_started, each step of the mutex, the
    condition variable and the state being its own step of the machine. */
module StartMonitor {
  import opened CTypes

  datatype TunnelPhase = Stopped | Starting | Online | Failed

  /** Where a caller stands. `Waiting` has given up the mutex inside the condition wait, `Woken` must
      take it again, `Launching` runs start_tunnel without it. */
  datatype Caller =
    | Outside
    | Checking          // holds the mutex, at the loop test
    | Waiting
    | Woken
    | Deciding          // holds the mutex, past the loop
    | Launching
    | Launched(result: int)
    | Publishing(outcome: int)   // holds the mutex again
    | Done(answer: int)

  datatype Monitor = Monitor(
    phase: TunnelPhase,
    mutex: Option<nat>,        // the caller holding it
    callers: seq<Caller>,
    launches: nat,             // how often start_tunnel was entered
    starter: nat,              // the caller that entered it last
    verdict: int)              // what it returned, once it did

  function Begin(n: nat): Monitor {
    Monitor(Stopped, None, seq(n, _ => Outside), 0, 0, 0)
  }

  predicate Holds(c: Caller) {
    c.Checking? || c.Deciding? || c.Publishing?
  }

  /** A step of one caller; `Wake` is a spurious wakeup, `Finish` the end of start_tunnel. */
  datatype Move = Lock | Test | Decide | Finish(code: int) | Publish | Wake

  datatype Event = Event(caller: nat, move: Move)

  predicate Enabled(m: Monitor, e: Event) {
    e.caller < |m.callers| &&
    var c := m.callers[e.caller];
    match e.move
    case Lock => (c.Outside? || c.Woken? || c.Launched?) && m.mutex.None?
    case Test => c.Checking?
    case Decide => c.Deciding?
    case Finish(_) => c.Launching?
    case Publish => c.Publishing?
    case Wake => c.Waiting?
  }

  function Broadcast(c: Caller): Caller {
    if c.Waiting? then Woken else c
  }

  function After(m: Monitor, e: Event): Monitor
    requires Enabled(m, e)
  {
    var i := e.caller;
    match e.move
    case Lock =>
      var next := if m.callers[i].Launched? then Publishing(m.callers[i].result) else Checking;
      m.(mutex := Some(i), callers := m.callers[i := next])
    case Test =>
      if m.phase.Starting? then m.(mutex := None, callers := m.callers[i := Waiting])
      else m.(callers := m.callers[i := Deciding])
    case Decide =>
      var answer := if m.phase.Online? then Done(0) else if m.phase.Failed? then Done(-1) else Launching;
      if answer.Launching?
      then m.(mutex := None, phase := Starting, callers := m.callers[i := Launching], launches := m.launches + 1,
             starter := i)
      else m.(mutex := None, callers := m.callers[i := answer])
    case Finish(code) => m.(callers := m.callers[i := Launched(code)], verdict := code)
    case Publish =>
      var code := m.callers[i].outcome;
      var woken := seq(|m.callers|, j requires 0 <= j < |m.callers| => Broadcast(m.callers[j]));
      m.(mutex := None, phase := if code == 0 then Online else Failed, callers := woken[i := Done(code)])
    case Wake => m.(callers := m.callers[i := Woken])
  }

  // ---------- what every step keeps ----------

  predicate Starts(c: Caller) {
    c.Launching? || c.Launched? || c.Publishing?
  }

  /** Mutual exclusion, and one starter exactly while starting. */
  ghost predicate Exclusive(m: Monitor) {
    forall i | 0 <= i < |m.callers| ::
      && (Holds(m.callers[i]) <==> m.mutex == Some(i))
      && (Starts(m.callers[i]) <==> m.phase.Starting? && m.starter == i)
  }

  /** What each caller knows where it stands. */
  ghost predicate CallerFits(m: Monitor, c: Caller) {
    match c
    case Waiting => m.phase.Starting?
    case Deciding => !m.phase.Starting?
    case Launched(result) => result == m.verdict
    case Publishing(outcome) => outcome == m.verdict
    case Done(answer) => (m.phase.Online? || m.phase.Failed?) && (answer == 0 <==> m.phase.Online?)
    case _ => true
  }

  ghost predicate Inv(m: Monitor) {
    && Exclusive(m)
    && (m.mutex.Some? ==> m.mutex.value < |m.callers|)
    && (m.phase.Starting? ==> m.starter < |m.callers|)
    && m.launches == (if m.phase.Stopped? then 0 else 1)
    && (forall i | 0 <= i < |m.callers| :: CallerFits(m, m.callers[i]))
    && (m.phase.Online? ==> m.verdict == 0) && (m.phase.Failed? ==> m.verdict != 0)
  }

  lemma StepKeepsInv(m: Monitor, e: Event)
    requires Inv(m) && Enabled(m, e)
    ensures Inv(After(m, e))
  {
    assert CallerFits(m, m.callers[e.caller]);
  }

  /** The state only moves forward, and only as far as one step allows. */
  lemma PhaseMovesForward(m: Monitor, e: Event)
    requires Inv(m) && Enabled(m, e)
    ensures var p, q := m.phase, After(m, e).phase;
            p == q || (p.Stopped? && q.Starting?) || (p.Starting? && (q.Online? || q.Failed?))
  {
    assert CallerFits(m, m.callers[e.caller]);
  }

  // ---------- runs ----------

  predicate Legal(m: Monitor, events: seq<Event>)
    decreases |events|
  {
    events == [] || (Enabled(m, events[0]) && Legal(After(m, events[0]), events[1..]))
  }

  function Run(m: Monitor, events: seq<Event>): Monitor
    requires Legal(m, events)
    decreases |events|
  {
    if events == [] then m else Run(After(m, events[0]), events[1..])
  }

  lemma {:induction false} RunKeepsInv(m: Monitor, events: seq<Event>)
    requires Inv(m) && Legal(m, events)
    ensures Inv(Run(m, events)) && |Run(m, events).callers| == |m.callers|
    decreases |events|
  {
    if events != [] {
      StepKeepsInv(m, events[0]);
      RunKeepsInv(After(m, events[0]), events[1..]);
    }
  }

  /** In every run of any number of callers start_tunnel is entered at most once; whoever has
      returned did so after the start was over, with 0 exactly if the one start returned 0. */
  lemma StartedOnce(n: nat, events: seq<Event>)
    requires Legal(Begin(n), events)
    ensures var m := Run(Begin(n), events);
            && m.launches <= 1 && |m.callers| == n
            && forall i | 0 <= i < |m.callers| && m.callers[i].Done? ::
                 m.launches == 1 && !m.phase.Starting? && (m.callers[i].answer == 0 <==> m.verdict == 0)
  {
    RunKeepsInv(Begin(n), events);
    var m := Run(Begin(n), events);
    assert forall i | 0 <= i < |m.callers| && m.callers[i].Done? :: CallerFits(m, m.callers[i]);
  }

  /** The caller that ran start_tunnel returns its result; every other one 0 or -1. */
  ghost predicate Reported(m: Monitor) {
    && (m.phase.Online? || m.phase.Failed? ==> m.starter < |m.callers| && m.callers[m.starter].Done?)
    && forall i | 0 <= i < |m.callers| && m.callers[i].Done? ::
         m.callers[i].answer == if i == m.starter then m.verdict else if m.phase.Online? then 0 else -1
  }

  lemma StepReports(m: Monitor, e: Event)
    requires Inv(m) && Reported(m) && Enabled(m, e)
    ensures Reported(After(m, e))
  {
    assert CallerFits(m, m.callers[e.caller]);
    forall i | 0 <= i < |m.callers| && m.callers[i].Done? ensures m.phase.Online? || m.phase.Failed? {
      assert CallerFits(m, m.callers[i]);
    }
  }

  lemma {:induction false} RunReports(m: Monitor, events: seq<Event>)
    requires Inv(m) && Reported(m) && Legal(m, events)
    ensures Reported(Run(m, events))
    decreases |events|
  {
    if events != [] {
      StepKeepsInv(m, events[0]);
      StepReports(m, events[0]);
      RunReports(After(m, events[0]), events[1..]);
    }
  }

  /** In every run the answers are these. */
  lemma AnswersReported(n: nat, events: seq<Event>)
    requires Legal(Begin(n), events)
    ensures var m := Run(Begin(n), events);
            forall i | 0 <= i < |m.callers| && m.callers[i].Done? ::
              m.callers[i].answer == if i == m.starter then m.verdict else if m.verdict == 0 then 0 else -1
  {
    RunReports(Begin(n), events);
    RunKeepsInv(Begin(n), events);
    StartedOnce(n, events);
  }

  /** While a caller has not returned, some step other than a spurious wakeup is possible. */
  lemma NeverStuck(m: Monitor, i: nat) returns (e: Event)
    requires Inv(m) && i < |m.callers| && !m.callers[i].Done?
    ensures Enabled(m, e) && !e.move.Wake?
  {
    if m.mutex.Some? {
      var h := m.mutex.value;
      e := Event(h, match m.callers[h] case Checking => Test case Deciding => Decide case _ => Publish);
    } else {
      var c := if m.callers[i].Waiting? then m.starter else i;
      assert CallerFits(m, m.callers[i]);
      e := Event(c, if m.callers[c].Launching? then Finish(0) else Lock);
    }
  }

  // ---------- every caller returns ----------

  function Rank(c: Caller, over: bool): nat {
    match c
    case Outside | Woken => if over then 6 else 9
    case Checking => if over then 5 else 8
    case Waiting => 7
    case Deciding => 4
    case Launching => 3
    case Launched(_) => 2
    case Publishing(_) => 1
    case Done(_) => 0
  }

  function Work(callers: seq<Caller>, over: bool): nat {
    if callers == [] then 0 else Rank(callers[0], over) + Work(callers[1..], over)
  }

  function Remaining(m: Monitor): nat {
    Work(m.callers, m.phase.Online? || m.phase.Failed?)
  }

  lemma {:induction false} WorkUpdate(callers: seq<Caller>, over: bool, i: nat, c: Caller)
    requires i < |callers|
    ensures Work(callers[i := c], over) == Work(callers, over) - Rank(callers[i], over) + Rank(c, over)
  {
    if i == 0 {
      assert callers[i := c][1..] == callers[1..];
    } else {
      assert callers[i := c][1..] == callers[1..][i - 1 := c];
      WorkUpdate(callers[1..], over, i - 1, c);
    }
  }

  lemma {:induction false} WorkShrinks(callers: seq<Caller>, now: seq<Caller>)
    requires |callers| == |now|
    requires forall i | 0 <= i < |callers| :: Rank(now[i], true) <= Rank(callers[i], false)
    ensures Work(now, true) <= Work(callers, false)
  {
    if callers != [] {
      assert forall i | 0 <= i < |callers[1..]| :: callers[1..][i] == callers[i + 1] && now[1..][i] == now[i + 1];
      WorkShrinks(callers[1..], now[1..]);
    }
  }

  lemma PublishWorks(m: Monitor, e: Event)
    requires Inv(m) && Enabled(m, e) && e.move.Publish?
    ensures Remaining(After(m, e)) < Remaining(m)
  {
    var i, x := e.caller, After(m, e);
    var rest := m.callers[i := Done(m.callers[i].outcome)];
    WorkUpdate(m.callers, false, i, Done(m.callers[i].outcome));
    WorkShrinks(rest, x.callers);
  }

  /** Each step but a spurious wakeup brings the callers nearer to returning. */
  lemma StepWorks(m: Monitor, e: Event)
    requires Inv(m) && Enabled(m, e)
    ensures if e.move.Wake? then Remaining(After(m, e)) == Remaining(m) + 2 else Remaining(After(m, e)) < Remaining(m)
  {
    var i, x := e.caller, After(m, e);
    assert CallerFits(m, m.callers[i]);
    if e.move.Publish? {
      PublishWorks(m, e);
    } else {
      WorkUpdate(m.callers, m.phase.Online? || m.phase.Failed?, i, x.callers[i]);
      assert x.callers == m.callers[i := x.callers[i]];
    }
  }

  function Wakeups(events: seq<Event>): nat {
    if events == [] then 0 else (if events[0].move.Wake? then 1 else 0) + Wakeups(events[1..])
  }

  lemma {:induction false} RunBounded(m: Monitor, events: seq<Event>)
    requires Inv(m) && Legal(m, events)
    ensures |events| <= Remaining(m) + 3 * Wakeups(events)
    decreases |events|
  {
    if events != [] {
      StepWorks(m, events[0]);
      StepKeepsInv(m, events[0]);
      RunBounded(After(m, events[0]), events[1..]);
    }
  }

  lemma {:induction false} WorkAtBegin(n: nat)
    ensures Work(seq(n, _ => Outside), false) == 9 * n
  {
    if n > 0 {
      assert seq(n, _ => Outside)[1..] == seq(n - 1, _ => Outside);
      WorkAtBegin(n - 1);
    }
  }

  /** A run of n callers takes at most 9 n steps, plus 3 for every spurious wakeup, and when it can go
      no further every caller has returned, with 0 exactly if the start succeeded. */
  lemma EveryCallerReturns(n: nat, events: seq<Event>)
    requires Legal(Begin(n), events)
    ensures |events| <= 9 * n + 3 * Wakeups(events)
    ensures var m := Run(Begin(n), events);
            (forall e: Event | Enabled(m, e) :: e.move.Wake?) ==>
              |m.callers| == n
              && forall i | 0 <= i < n :: m.callers[i].Done? && (m.callers[i].answer == 0 <==> m.verdict == 0)
  {
    WorkAtBegin(n);
    RunBounded(Begin(n), events);
    StartedOnce(n, events);
    RunKeepsInv(Begin(n), events);
    var m := Run(Begin(n), events);
    if forall e: Event | Enabled(m, e) :: e.move.Wake? {
      forall i | 0 <= i < |m.callers| ensures m.callers[i].Done? {
        if !m.callers[i].Done? {
          var e := NeverStuck(m, i);
        }
      }
    }
  }
}
