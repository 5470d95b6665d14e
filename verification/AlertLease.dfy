/** How long a delivered alert stays alive at the receiver (src/alertmanager.rs). A firing alert is a
    lease: it must be renewed before its `endsAt`. */
module AlertLease {
  import opened Text
  import opened Alerts
  import opened AlertProtocol

  const REFRESH_INTERVAL: int := 10

  /** A run watched from the side of one alert: `good` is when its last successful reconciliation
      started, `pass` when the one in progress started. */
  datatype Watch = Watch(w: World, good: Time, pass: Time)

  /** The steps allowed to the run. Sends and writes may fail in any way and the process may crash at
      any point; but the issue stays live under the same identity, nothing else closes it (its interval may
      differ on every pass), and the next successful reconciliation is done no later than `deadline` after
      the last one started. */
  predicate Allowed(l: Watch, x: Identity, deadline: Time, s: Step)
    requires IssueIdentity(x)
  {
    var id := x.labels["issue_id"];
    Enabled(l.w, s)
    && match s
       case Tick(to) => to <= l.good + deadline
       case Notify(p) => p.issueId != id
       case Reconcile(i, live, endpoint, alert, seconds, clock) =>
         i == id ==>
           live && Identity(endpoint, alert.labels) == x && Leased(s) && l.good <= clock.started
       case _ => true
  }

  /** A delivery of the alert is recorded within `took` of the start of its pass. */
  predicate Prompt(l: Watch, x: Identity, took: Time, s: Step)
    requires IssueIdentity(x)
  {
    s.Write? && l.w.pc.Marking? && l.w.pc.sent.issueId == x.labels["issue_id"] ==> s.at <= l.pass + took
  }

  predicate Concerns(pc: Pc, id: string) {
    match pc
    case Idle => false
    case Closing(old_, _) => old_.issueId == id
    case Removing(i) => i == id
    case Saving(draft) => draft.issueId == id
    case Sending(saved) => saved.issueId == id
    case Marking(sent) => sent.issueId == id
  }

  /** A pass succeeds when it finds nothing to renew, or when its renewal is delivered and recorded. */
  function Advance(l: Watch, x: Identity, s: Step): Watch
    requires IssueIdentity(x) && Enabled(l.w, s)
  {
    var id := x.labels["issue_id"];
    var w' := Apply(l.w, s);
    if s.Reconcile? && s.id == id then Watch(w', if w'.pc.Idle? then s.clock.started else l.good, s.clock.started)
    else if l.w.pc.Marking? && l.w.pc.sent.issueId == id && s.Write? && s.how.Done? then Watch(w', l.pass, l.pass)
    else Watch(w', l.good, l.pass)
  }

  /** The lease outlasts the next deadline; a record that says "delivered" agrees with the receiver; a
      renewal under way is long enough. */
  ghost predicate Alive(l: Watch, x: Identity, deadline: Time, took: Time)
    requires IssueIdentity(x)
  {
    var id := x.labels["issue_id"];
    var w := l.w;
    && Inv(w) && Tracked(w, x) && x in w.receiver
    && w.now <= l.good + deadline < w.receiver[x]
    && (w.store[id].lastSentAt.Some? ==>
          w.store[id].alert.endsAt == w.receiver[x] >= w.store[id].lastSentAt.value - took + ALERT_TTL * SECOND)
    && (Concerns(w.pc, id) ==>
          match w.pc
          case Saving(draft) => Renewal(l, x, draft)
          case Sending(saved) => Renewal(l, x, saved)
          case Marking(sent) => Renewal(l, x, sent) && sent.alert.endsAt == w.receiver[x]
          case _ => false)
  }

  predicate Renewal(l: Watch, x: Identity, r: Record) {
    IdentityOf(r) == x && r.lastSentAt.None? && l.good <= l.pass
    && r.alert.endsAt >= l.pass + ALERT_TTL * SECOND
  }

  /** A pass that finds nothing to do saw either a long interval, and so a long lease, or a short one, and
      so a recent delivery: two deadlines and a delivery fit into the shortest lease. */
  predicate Fits(deadline: Time, took: Time) { 0 <= took && 2 * deadline + took <= ALERT_TTL * SECOND }

  lemma Distinct(r: Record, x: Identity)
    requires IssueIdentity(x) && WellFormed(r) && r.issueId != x.labels["issue_id"]
    ensures IdentityOf(r) != x
  {
  }

  lemma OthersDoNotPost(l: Watch, x: Identity, deadline: Time, took: Time, s: Step)
    requires IssueIdentity(x) && Alive(l, x, deadline, took) && Allowed(l, x, deadline, s) && Fits(deadline, took)
    requires s.Post? && !Concerns(l.w.pc, x.labels["issue_id"])
    ensures Alive(Advance(l, x, s), x, deadline, took)
  {
    StepPreserves(l.w, s);
    Distinct(if l.w.pc.Closing? then l.w.pc.old_ else l.w.pc.saved, x);
  }

  lemma OthersDoNotWrite(l: Watch, x: Identity, deadline: Time, took: Time, s: Step)
    requires IssueIdentity(x) && Alive(l, x, deadline, took) && Allowed(l, x, deadline, s) && Fits(deadline, took)
    requires s.Write? && !Concerns(l.w.pc, x.labels["issue_id"])
    ensures Alive(Advance(l, x, s), x, deadline, took)
  {
    StepPreserves(l.w, s);
  }

  lemma RenewalKeepsAlive(l: Watch, x: Identity, deadline: Time, took: Time, s: Step)
    requires IssueIdentity(x) && Alive(l, x, deadline, took) && Allowed(l, x, deadline, s) && Fits(deadline, took)
    requires (s.Post? || s.Write?) && Concerns(l.w.pc, x.labels["issue_id"]) && Prompt(l, x, took, s)
    ensures Alive(Advance(l, x, s), x, deadline, took)
  {
    StepPreserves(l.w, s);
  }

  lemma PassKeepsAlive(l: Watch, x: Identity, deadline: Time, took: Time, s: Step)
    requires IssueIdentity(x) && Alive(l, x, deadline, took) && Allowed(l, x, deadline, s) && Fits(deadline, took)
    requires s.Reconcile?
    ensures Alive(Advance(l, x, s), x, deadline, took)
  {
    StepPreserves(l.w, s);
  }

  lemma OtherStepsKeepAlive(l: Watch, x: Identity, deadline: Time, took: Time, s: Step)
    requires IssueIdentity(x) && Alive(l, x, deadline, took) && Allowed(l, x, deadline, s)
    requires !s.Post? && !s.Write? && !s.Reconcile?
    ensures Alive(Advance(l, x, s), x, deadline, took)
  {
    StepPreserves(l.w, s);
  }

  lemma StepKeepsAlive(l: Watch, x: Identity, deadline: Time, took: Time, s: Step)
    requires IssueIdentity(x) && Alive(l, x, deadline, took) && Allowed(l, x, deadline, s) && Prompt(l, x, took, s)
    requires Fits(deadline, took)
    ensures Alive(Advance(l, x, s), x, deadline, took)
  {
    if s.Reconcile? {
      PassKeepsAlive(l, x, deadline, took, s);
    } else if !s.Post? && !s.Write? {
      OtherStepsKeepAlive(l, x, deadline, took, s);
    } else if Concerns(l.w.pc, x.labels["issue_id"]) {
      RenewalKeepsAlive(l, x, deadline, took, s);
    } else if s.Post? {
      OthersDoNotPost(l, x, deadline, took, s);
    } else {
      OthersDoNotWrite(l, x, deadline, took, s);
    }
  }

  ghost function WatchAfter(l: Watch, x: Identity, steps: seq<Step>): (r: Watch)
    requires IssueIdentity(x) && ValidRun(l.w, steps)
    ensures r.w == After(l.w, steps)
  {
    if steps == [] then l else Advance(WatchAfter(l, x, steps[..|steps| - 1]), x, steps[|steps| - 1])
  }

  ghost predicate AllowedRun(l: Watch, x: Identity, deadline: Time, steps: seq<Step>)
    requires IssueIdentity(x) && ValidRun(l.w, steps)
  {
    steps != [] ==>
      AllowedRun(l, x, deadline, steps[..|steps| - 1])
      && Allowed(WatchAfter(l, x, steps[..|steps| - 1]), x, deadline, steps[|steps| - 1])
  }

  ghost predicate PromptRun(l: Watch, x: Identity, took: Time, steps: seq<Step>)
    requires IssueIdentity(x) && ValidRun(l.w, steps)
  {
    steps != [] ==>
      PromptRun(l, x, took, steps[..|steps| - 1])
      && Prompt(WatchAfter(l, x, steps[..|steps| - 1]), x, took, steps[|steps| - 1])
  }

  /** A live alert never lapses, whatever fails in between and however its interval is edited, as long as
      two deadlines and the time to record a delivery fit into five minutes. */
  lemma {:induction false} LeaseNeverLapses(l: Watch, x: Identity, deadline: Time, took: Time, steps: seq<Step>)
    requires IssueIdentity(x) && Alive(l, x, deadline, took) && Fits(deadline, took) && ValidRun(l.w, steps)
    requires AllowedRun(l, x, deadline, steps) && PromptRun(l, x, took, steps)
    ensures Alive(WatchAfter(l, x, steps), x, deadline, took) && Firing(WatchAfter(l, x, steps).w, x)
  {
    if steps != [] {
      LeaseNeverLapses(l, x, deadline, took, steps[..|steps| - 1]);
      StepKeepsAlive(WatchAfter(l, x, steps[..|steps| - 1]), x, deadline, took, steps[|steps| - 1]);
    }
  }

  /** Nothing needs to be said about deliveries if reconciliation succeeds every 100 seconds, ten times the
      cadence of the scheduler. */
  lemma {:induction false} LeaseAtCadence(l: Watch, x: Identity, deadline: Time, steps: seq<Step>)
    requires IssueIdentity(x) && 0 <= deadline <= 10 * REFRESH_INTERVAL * SECOND && Alive(l, x, deadline, deadline)
    requires ValidRun(l.w, steps) && AllowedRun(l, x, deadline, steps)
    ensures PromptRun(l, x, deadline, steps) && Alive(WatchAfter(l, x, steps), x, deadline, deadline)
    ensures Firing(WatchAfter(l, x, steps).w, x)
  {
    if steps != [] {
      LeaseAtCadence(l, x, deadline, steps[..|steps| - 1]);
      StepKeepsAlive(WatchAfter(l, x, steps[..|steps| - 1]), x, deadline, deadline, steps[|steps| - 1]);
    }
  }

  /** A recorded delivery is such a beginning. */
  lemma DeliveryIsAlive(w: World, x: Identity, started: Time, deadline: Time, took: Time)
    requires IssueIdentity(x) && Inv(w) && w.pc.Idle? && Tracked(w, x) && x in w.receiver
    requires started <= w.now <= started + deadline && Fits(deadline, took)
    requires JustDelivered(w, x, started, took, ALERT_TTL * SECOND)
    ensures Alive(Watch(w, started, started), x, deadline, took)
  {
  }

  /** A pass that began at `started` recorded the delivery of a lease of at least `ttl`. */
  predicate JustDelivered(w: World, x: Identity, started: Time, took: Time, ttl: Time)
    requires IssueIdentity(x) && Tracked(w, x) && x in w.receiver
  {
    var r := w.store[x.labels["issue_id"]];
    && r.lastSentAt.Some? && r.lastSentAt.value <= started + took
    && r.alert.endsAt == w.receiver[x] >= started + ttl
  }

  // ---- the bound is sharp ----

  lemma WatchExtends(l: Watch, x: Identity, deadline: Time, took: Time, steps: seq<Step>, s: Step)
    requires IssueIdentity(x) && ValidRun(l.w, steps) && AllowedRun(l, x, deadline, steps) && PromptRun(l, x, took, steps)
    requires Allowed(WatchAfter(l, x, steps), x, deadline, s) && Prompt(WatchAfter(l, x, steps), x, took, s)
    ensures var all := steps + [s];
            && ValidRun(l.w, all) && AllowedRun(l, x, deadline, all) && PromptRun(l, x, took, all)
            && WatchAfter(l, x, all) == Advance(WatchAfter(l, x, steps), x, s)
  {
    assert (steps + [s])[..|steps|] == steps;
    Extend(l.w, steps, s);
  }

  /** A pass over the alert `x` that reads the clock once, at `t`, with the interval at `seconds`. */
  function PassAt(x: Identity, alert: Alert, seconds: int, t: Time): Step
    requires IssueIdentity(x)
  {
    Reconcile(x.labels["issue_id"], true, x.endpoint,
              alert.(labels := x.labels, endsAt := t + AlertTtl(seconds) * SECOND), seconds, Reads(t, t, t, t))
  }

  /** Waiting and then finding nothing due moves the watch to the later time, and that is all. */
  lemma QuietPass(l: Watch, x: Identity, deadline: Time, took: Time, steps: seq<Step>, alert: Alert, seconds: int, t: Time)
    requires IssueIdentity(x) && ValidRun(l.w, steps) && AllowedRun(l, x, deadline, steps) && PromptRun(l, x, took, steps)
    requires var m := WatchAfter(l, x, steps);
             && m.w.pc.Idle? && Tracked(m.w, x) && m.good <= m.w.now <= t <= m.good + deadline
             && NotDue(m.w.store[x.labels["issue_id"]], seconds, t, t)
    ensures var all := steps + [Tick(t)] + [PassAt(x, alert, seconds, t)];
            && ValidRun(l.w, all) && AllowedRun(l, x, deadline, all) && PromptRun(l, x, took, all)
            && WatchAfter(l, x, all) == Watch(WatchAfter(l, x, steps).w.(now := t), t, t)
  {
    WatchExtends(l, x, deadline, took, steps, Tick(t));
    WatchExtends(l, x, deadline, took, steps + [Tick(t)], PassAt(x, alert, seconds, t));
  }

  /** Two nanoseconds more than fit, and a live alert can lapse though every pass succeeds: its interval is
      raised to just under the deadline, so that a pass just before the next delivery is due finds nothing
      to do. One such pair of limits for every interval from 100 to 149 seconds. */
  lemma LapsesBeyond(l: Watch, x: Identity, alert: Alert, seconds: int)
    requires IssueIdentity(x) && l.w.pc.Idle? && Tracked(l.w, x) && x in l.w.receiver && 100 <= seconds < 150
    requires var r := l.w.store[x.labels["issue_id"]];
             && r.lastSentAt == Some(l.w.now) && l.w.now == l.good + (300 - 2 * seconds) * SECOND
             && r.alert.endsAt == l.w.receiver[x] == l.good + 300 * SECOND
    ensures var deadline, took := seconds * SECOND + 1, (300 - 2 * seconds) * SECOND;
            && 2 * deadline + took == ALERT_TTL * SECOND + 2
            && exists steps ::
                 && ValidRun(l.w, steps) && AllowedRun(l, x, deadline, steps) && PromptRun(l, x, took, steps)
                 && !Firing(WatchAfter(l, x, steps).w, x)
  {
    var deadline, took := seconds * SECOND + 1, (300 - 2 * seconds) * SECOND;
    var t, u := l.good + seconds * SECOND, l.good + (300 - seconds) * SECOND - 1;
    QuietPass(l, x, deadline, took, [], alert, seconds, t);
    var first := [] + [Tick(t)] + [PassAt(x, alert, seconds, t)];
    QuietPass(l, x, deadline, took, first, alert, seconds, u);
    var second := first + [Tick(u)] + [PassAt(x, alert, seconds, u)];
    WatchExtends(l, x, deadline, took, second, Tick(l.good + 300 * SECOND));
  }

  // ---- outages ----

  /** The lease outlives its interval by at least 200 seconds. */
  lemma TtlMargin(seconds: int)
    ensures AlertTtl(seconds) >= seconds + 200
    ensures AlertTtl(seconds) == seconds + 200 <==> seconds == 100
  {
  }

  /** The same run seen as a series of attempts at a fixed interval: `pass` is when the last pass over the
      alert started, `since` when the first attempt after the last successful pass did, and `tries` how
      many attempts there have been since then. */
  datatype Outage = Outage(w: World, pass: Time, since: Option<Time>, tries: nat)

  /** The interval in force, the longest time between the starts of two passes over the alert (ten seconds
      when a sweep is quick), and the longest time from the start of a pass to the record of its delivery. */
  datatype Pace = Pace(seconds: int, gap: Time, took: Time) {
    predicate Valid() { 0 <= gap && 0 <= took }
  }

  /** Passes start in time, but any of them may fail, at any step and in any way, or be cut short by a crash. */
  predicate Attempted(o: Outage, x: Identity, pace: Pace, s: Step)
    requires IssueIdentity(x)
  {
    var id := x.labels["issue_id"];
    Enabled(o.w, s)
    && match s
       case Tick(to) => to <= o.pass + pace.gap
       case Notify(p) => p.issueId != id
       case Reconcile(i, live, endpoint, alert, secs, clock) =>
         i == id ==>
           live && Identity(endpoint, alert.labels) == x && secs == pace.seconds && Leased(s) && o.pass <= clock.started
       case Write(_, at) => o.w.pc.Marking? && o.w.pc.sent.issueId == id ==> at <= o.pass + pace.took
       case _ => true
  }

  /** An attempt counts as failed until its delivery is recorded. */
  function Attempt(o: Outage, x: Identity, s: Step): Outage
    requires IssueIdentity(x) && Enabled(o.w, s)
  {
    var id := x.labels["issue_id"];
    var w' := Apply(o.w, s);
    if s.Reconcile? && s.id == id then
      if w'.pc.Idle? then Outage(w', s.clock.started, None, 0)
      else Outage(w', s.clock.started, Some(if o.since.Some? then o.since.value else s.clock.started), o.tries + 1)
    else if o.w.pc.Marking? && o.w.pc.sent.issueId == id && s.Write? && s.how.Done? then Outage(w', o.pass, None, 0)
    else o.(w := w')
  }

  /** The lease covers 200 seconds, less a gap and a delivery, from the first failed attempt, or from the
      latest time of the next one. */
  ghost predicate Covered(o: Outage, x: Identity, pace: Pace)
    requires IssueIdentity(x)
  {
    var id := x.labels["issue_id"];
    var w := o.w;
    && Inv(w) && Tracked(w, x) && x in w.receiver
    && w.now <= o.pass + pace.gap
    && (match o.since
        case None => w.receiver[x] >= o.pass + 200 * SECOND - pace.took && o.tries == 0
        case Some(t) =>
          w.receiver[x] >= t + 200 * SECOND - pace.gap - pace.took
          && t <= o.pass <= t + pace.gap * (o.tries - 1))
    && (w.store[id].lastSentAt.Some? ==>
          w.receiver[x] >= w.store[id].lastSentAt.value - pace.took + AlertTtl(pace.seconds) * SECOND)
    && (Concerns(w.pc, id) ==>
          match w.pc
          case Saving(draft) => Underway(o, x, pace, draft)
          case Sending(saved) => Underway(o, x, pace, saved)
          case Marking(sent) => Underway(o, x, pace, sent) && sent.alert.endsAt == w.receiver[x]
          case _ => false)
  }

  predicate Underway(o: Outage, x: Identity, pace: Pace, r: Record) {
    IdentityOf(r) == x && r.lastSentAt.None? && o.since.Some?
    && r.alert.endsAt >= o.pass + AlertTtl(pace.seconds) * SECOND
  }

  /** Not being due, with time left on the record, leaves the lease long enough for the next pass; being
      due starts an attempt within a gap of the last pass that was not. */
  lemma PassKeepsCovered(o: Outage, x: Identity, pace: Pace, s: Step)
    requires IssueIdentity(x) && pace.Valid() && Covered(o, x, pace)
    requires Attempted(o, x, pace, s) && s.Reconcile?
    ensures Covered(Attempt(o, x, s), x, pace)
  {
    StepPreserves(o.w, s);
    if s.id == x.labels["issue_id"] {
      TtlMargin(pace.seconds);
      OwnPass(o, x, pace, s);
    }
  }

  lemma OwnPass(o: Outage, x: Identity, pace: Pace, s: Step)
    requires IssueIdentity(x) && pace.Valid() && Covered(o, x, pace) && Attempted(o, x, pace, s)
    requires s.Reconcile? && s.id == x.labels["issue_id"] && Inv(Apply(o.w, s))
    requires AlertTtl(pace.seconds) >= pace.seconds + 200
    ensures Covered(Attempt(o, x, s), x, pace)
  {
    var e := Attempt(o, x, s);
    if !e.w.pc.Idle? {
      assert e.w.pc.Saving?;
      Tries(o, e, pace);
    }
  }

  /** One more attempt, at most a gap later. */
  lemma Tries(o: Outage, e: Outage, pace: Pace)
    requires e.tries == o.tries + 1 && o.pass <= e.pass <= o.pass + pace.gap && e.since.Some?
    requires if o.since.None? then o.tries == 0 && e.since.value == e.pass
             else e.since == o.since && o.since.value <= o.pass <= o.since.value + pace.gap * (o.tries - 1)
    ensures e.since.value <= e.pass <= e.since.value + pace.gap * (e.tries - 1)
  {
    assert o.since.Some? ==> pace.gap * (e.tries - 1) == pace.gap * (o.tries - 1) + pace.gap;
  }

  lemma SendKeepsCovered(o: Outage, x: Identity, pace: Pace, s: Step)
    requires IssueIdentity(x) && pace.Valid() && Covered(o, x, pace)
    requires Attempted(o, x, pace, s) && s.Post?
    ensures Covered(Attempt(o, x, s), x, pace)
  {
    StepPreserves(o.w, s);
    TtlMargin(pace.seconds);
    if !Concerns(o.w.pc, x.labels["issue_id"]) {
      Distinct(if o.w.pc.Closing? then o.w.pc.old_ else o.w.pc.saved, x);
    }
  }

  lemma WriteKeepsCovered(o: Outage, x: Identity, pace: Pace, s: Step)
    requires IssueIdentity(x) && pace.Valid() && Covered(o, x, pace)
    requires Attempted(o, x, pace, s) && s.Write?
    ensures Covered(Attempt(o, x, s), x, pace)
  {
    StepPreserves(o.w, s);
    if Concerns(o.w.pc, x.labels["issue_id"]) {
      TtlMargin(pace.seconds);
      OwnWrite(o, x, pace, s);
    } else {
      OthersWrite(o, x, pace, s);
    }
  }

  lemma OwnWrite(o: Outage, x: Identity, pace: Pace, s: Step)
    requires IssueIdentity(x) && pace.Valid() && Covered(o, x, pace) && Attempted(o, x, pace, s) && s.Write?
    requires Inv(Apply(o.w, s)) && Concerns(o.w.pc, x.labels["issue_id"])
    requires AlertTtl(pace.seconds) >= pace.seconds + 200 && AlertTtl(pace.seconds) >= ALERT_TTL
    ensures Covered(Attempt(o, x, s), x, pace)
  {
  }

  lemma OthersWrite(o: Outage, x: Identity, pace: Pace, s: Step)
    requires IssueIdentity(x) && Covered(o, x, pace) && Attempted(o, x, pace, s) && s.Write?
    requires Inv(Apply(o.w, s)) && !Concerns(o.w.pc, x.labels["issue_id"])
    ensures Covered(Attempt(o, x, s), x, pace)
  {
    SameForAlert(o, Attempt(o, x, s), x, pace);
  }

  /** What does not touch the alert leaves it covered. */
  lemma SameForAlert(o: Outage, e: Outage, x: Identity, pace: Pace)
    requires IssueIdentity(x) && Covered(o, x, pace) && Inv(e.w) && e == o.(w := e.w)
    requires var id := x.labels["issue_id"];
             && e.w.receiver == o.w.receiver && e.w.now == o.w.now && !Concerns(e.w.pc, id)
             && id in e.w.store && e.w.store[id] == o.w.store[id]
    ensures Covered(e, x, pace)
  {
  }

  lemma OtherStepsKeepCovered(o: Outage, x: Identity, pace: Pace, s: Step)
    requires IssueIdentity(x) && pace.Valid() && Covered(o, x, pace)
    requires Attempted(o, x, pace, s) && !s.Post? && !s.Write? && !s.Reconcile?
    ensures Covered(Attempt(o, x, s), x, pace)
  {
    StepPreserves(o.w, s);
  }

  ghost function OutageAfter(o: Outage, x: Identity, steps: seq<Step>): (r: Outage)
    requires IssueIdentity(x) && ValidRun(o.w, steps)
    ensures r.w == After(o.w, steps)
  {
    if steps == [] then o else Attempt(OutageAfter(o, x, steps[..|steps| - 1]), x, steps[|steps| - 1])
  }

  ghost predicate AttemptedRun(o: Outage, x: Identity, pace: Pace, steps: seq<Step>)
    requires IssueIdentity(x) && ValidRun(o.w, steps)
  {
    steps != [] ==>
      AttemptedRun(o, x, pace, steps[..|steps| - 1])
      && Attempted(OutageAfter(o, x, steps[..|steps| - 1]), x, pace, steps[|steps| - 1])
  }

  lemma {:induction false} StaysCovered(o: Outage, x: Identity, pace: Pace, steps: seq<Step>)
    requires IssueIdentity(x) && pace.Valid() && Covered(o, x, pace)
    requires ValidRun(o.w, steps) && AttemptedRun(o, x, pace, steps)
    ensures Covered(OutageAfter(o, x, steps), x, pace)
  {
    if steps != [] {
      var s := steps[|steps| - 1];
      StaysCovered(o, x, pace, steps[..|steps| - 1]);
      var m := OutageAfter(o, x, steps[..|steps| - 1]);
      if s.Reconcile? {
        PassKeepsCovered(m, x, pace, s);
      } else if s.Post? {
        SendKeepsCovered(m, x, pace, s);
      } else if s.Write? {
        WriteKeepsCovered(m, x, pace, s);
      } else {
        OtherStepsKeepCovered(m, x, pace, s);
      }
    }
  }

  /** In every run at a fixed interval, whatever it is, an alert that no longer fires has seen nothing but
      failed attempts for at least 200 seconds, less a gap and a delivery (190 when deliveries are instant and
      passes ten seconds apart), and as many of them as that time holds gaps. */
  lemma LapseNeedsLongOutage(o: Outage, x: Identity, pace: Pace, steps: seq<Step>)
    requires IssueIdentity(x) && pace.Valid() && pace.gap + pace.took < 200 * SECOND && Covered(o, x, pace)
    requires ValidRun(o.w, steps) && AttemptedRun(o, x, pace, steps)
    ensures var e := OutageAfter(o, x, steps);
            !Firing(e.w, x) ==>
              && e.since.Some? && e.w.now - e.since.value >= 200 * SECOND - pace.gap - pace.took
              && e.tries * pace.gap >= 200 * SECOND - pace.gap - pace.took
  {
    StaysCovered(o, x, pace, steps);
    if !Firing(OutageAfter(o, x, steps).w, x) {
      LapsedIsOutage(OutageAfter(o, x, steps), x, pace);
    }
  }

  lemma LapsedIsOutage(o: Outage, x: Identity, pace: Pace)
    requires IssueIdentity(x) && pace.gap + pace.took < 200 * SECOND && Covered(o, x, pace) && !Firing(o.w, x)
    ensures o.since.Some? && o.w.now - o.since.value >= 200 * SECOND - pace.gap - pace.took
    ensures o.tries * pace.gap >= 200 * SECOND - pace.gap - pace.took
  {
    assert pace.gap * (o.tries - 1) + pace.gap == o.tries * pace.gap;
  }

  /** A recorded delivery is such a beginning. */
  lemma DeliveryIsCovered(w: World, x: Identity, started: Time, pace: Pace)
    requires IssueIdentity(x) && Inv(w) && w.pc.Idle? && Tracked(w, x) && x in w.receiver
    requires started <= w.now <= started + pace.gap && pace.Valid()
    requires JustDelivered(w, x, started, pace.took, AlertTtl(pace.seconds) * SECOND)
    ensures Covered(Outage(w, started, None, 0), x, pace)
  {
    TtlMargin(pace.seconds);
  }
}
