/** The alert lifecycle of src/alertmanager.rs as a step relation: every clock reading, store write and
    HTTP send is a step of its own, a send or write may fail with or without effect, and the process may
    stop between any two steps. */
module AlertProtocol {
  import opened Text
  import opened Alerts

  /** What the receiver keys an alert by: where it was posted, and its complete label set. */
  datatype Identity = Identity(endpoint: string, labels: Labels)

  /** The durable record of one tracked alert. */
  datatype Record = Record(issueId: string, endpoint: string, trigger: string, alert: Alert,
                           lastSentAt: Option<Time>)

  function IdentityOf(r: Record): Identity { Identity(r.endpoint, r.alert.labels) }

  /** Done: carried out and acknowledged. LostReply: carried out, reported as failed. Refused: no effect. */
  datatype Outcome = Done | LostReply | Refused

  /** Where the holder of the mutex stands: what it will do next. */
  datatype Pc =
    | Idle
    | Closing(old_: Record, next: Option<Record>)   // post the resolution of `old_`
    | Removing(id: string)                          // delete the record of a resolved alert
    | Saving(draft: Record)                         // persist before delivery
    | Sending(saved: Record)                        // post the firing alert
    | Marking(sent: Record)                         // persist the time of delivery

  /** The receiver keeps, per identity, the `endsAt` of the last post. */
  datatype World = World(store: map<string, Record>, receiver: map<Identity, Time>, now: Time, pc: Pc)

  /** The clock readings of one reconciliation, in order. */
  datatype Reads = Reads(started: Time, rendered: Time, checked: Time, leased: Time)

  datatype Step =
    | Tick(to: Time)
    | Notify(pending: Record)
    | Reconcile(id: string, live: bool, endpoint: string, alert: Alert, seconds: int, clock: Reads)
    | Post(how: Outcome, at: Time)
    | Write(how: Outcome, at: Time)
    | Crash
    | TestPost(x: Identity, endsAt: Time, how: Outcome)

  // ---- reconciliation's decision ----

  function AlertTtl(seconds: int): int { if 3 * seconds > ALERT_TTL then 3 * seconds else ALERT_TTL }

  /** A pass over a live alert offers it with a lease of five minutes, or of three intervals if that is more. */
  predicate Leased(s: Step) {
    s.Reconcile? && s.live ==>
      s.alert.endsAt == s.clock.rendered + (if s.seconds > 100 then 3 * s.seconds else 300) * 1_000_000_000
  }

  /** Delivered within the interval, and leased for longer than the interval. */
  predicate NotDue(saved: Record, seconds: int, checked: Time, leased: Time) {
    saved.lastSentAt.Some? && checked < saved.lastSentAt.value + seconds * SECOND
    && saved.alert.endsAt > leased + seconds * SECOND
  }

  /** What reconciling `saved` sets out to do, given the alert just rendered for its issue. */
  function Decision(saved: Record, live: bool, endpoint: string, alert: Alert, seconds: int, clock: Reads): Pc {
    if !live then Closing(saved, None)
    else
      var changed := saved.endpoint != endpoint || saved.alert.labels != alert.labels;
      if !changed && NotDue(saved, seconds, clock.checked, clock.leased) then Idle
      else if changed then Closing(saved, Some(saved.(endpoint := endpoint, alert := alert, lastSentAt := None)))
      else Saving(saved.(alert := alert.(startsAt := saved.alert.startsAt), lastSentAt := None))
  }

  // ---- steps ----

  /** The identity belongs to an issue: its `issue_id` label is a UUID. */
  predicate IssueIdentity(x: Identity) { "issue_id" in x.labels && IsUuid(x.labels["issue_id"]) }

  predicate WellFormed(r: Record) { IssueIdentity(IdentityOf(r)) && r.alert.labels["issue_id"] == r.issueId }

  predicate Enabled(w: World, s: Step) {
    match s
    case Tick(to) => w.now <= to
    case Notify(p) => w.pc.Idle? && WellFormed(p) && p.lastSentAt.None?
    case Reconcile(id, live, endpoint, alert, seconds, clock) =>
      w.pc.Idle? && id in w.store
      && (live ==> "issue_id" in alert.labels && alert.labels["issue_id"] == id)
      && clock.started <= clock.rendered <= clock.checked <= clock.leased <= w.now
    case Post(_, at) => (w.pc.Closing? || w.pc.Sending?) && at <= w.now
    case Write(_, at) => (w.pc.Removing? || w.pc.Saving? || w.pc.Marking?) && at <= w.now
    case Crash => true
    case TestPost(x, _, _) => !IssueIdentity(x)
  }

  function PostWith(w: World, x: Identity, endsAt: Time, how: Outcome): map<Identity, Time> {
    if how.Refused? then w.receiver else w.receiver[x := endsAt]
  }

  function SaveWith(w: World, r: Record, how: Outcome): map<string, Record> {
    if how.Refused? then w.store else w.store[r.issueId := r]
  }

  function Apply(w: World, s: Step): World
    requires Enabled(w, s)
  {
    match s
    case Tick(to) => w.(now := to)
    case Notify(p) =>
      w.(pc := if p.issueId in w.store then Closing(w.store[p.issueId], Some(p)) else Saving(p))
    case Reconcile(id, live, endpoint, alert, seconds, clock) =>
      w.(pc := Decision(w.store[id], live, endpoint, alert, seconds, clock))
    case Post(how, at) =>
      if w.pc.Closing? then
        var resolved := if w.pc.next.Some? then Saving(w.pc.next.value) else Removing(w.pc.old_.issueId);
        w.(receiver := PostWith(w, IdentityOf(w.pc.old_), at, how), pc := if how.Done? then resolved else Idle)
      else
        w.(receiver := PostWith(w, IdentityOf(w.pc.saved), w.pc.saved.alert.endsAt, how),
           pc := if how.Done? then Marking(w.pc.saved) else Idle)
    case Write(how, at) =>
      if w.pc.Removing? then
        w.(store := if how.Refused? then w.store else w.store - {w.pc.id}, pc := Idle)
      else if w.pc.Saving? then
        w.(store := SaveWith(w, w.pc.draft, how), pc := if how.Done? then Sending(w.pc.draft) else Idle)
      else
        w.(store := SaveWith(w, w.pc.sent.(lastSentAt := Some(at)), how), pc := Idle)
    case Crash => w.(pc := Idle)
    case TestPost(x, endsAt, how) => w.(receiver := PostWith(w, x, endsAt, how))
  }

  ghost predicate ValidRun(w: World, steps: seq<Step>)
    decreases |steps|, 0
  {
    steps != [] ==>
      ValidRun(w, steps[..|steps| - 1]) && Enabled(After(w, steps[..|steps| - 1]), steps[|steps| - 1])
  }

  ghost function After(w: World, steps: seq<Step>): World
    requires ValidRun(w, steps)
    decreases |steps|, 1
  {
    if steps == [] then w else Apply(After(w, steps[..|steps| - 1]), steps[|steps| - 1])
  }

  lemma Extend(w: World, steps: seq<Step>, s: Step)
    requires ValidRun(w, steps) && Enabled(After(w, steps), s)
    ensures ValidRun(w, steps + [s]) && After(w, steps + [s]) == Apply(After(w, steps), s)
  {
    assert (steps + [s])[..|steps|] == steps;
  }

  // ---- safety ----

  predicate Firing(w: World, x: Identity) { x in w.receiver && w.receiver[x] > w.now }

  predicate OfIssue(x: Identity, id: string) { IssueIdentity(x) && x.labels["issue_id"] == id }

  predicate Tracked(w: World, x: Identity)
    requires IssueIdentity(x)
  {
    var id := x.labels["issue_id"];
    id in w.store && IdentityOf(w.store[id]) == x
  }

  /** Every issue alert still firing at the receiver is the one its issue's record describes. */
  ghost predicate NoUntracked(w: World) {
    forall x :: Firing(w, x) && IssueIdentity(x) ==> Tracked(w, x)
  }

  ghost predicate Quiet(w: World, id: string) { forall x :: OfIssue(x, id) ==> !Firing(w, x) }

  ghost predicate StoreWellFormed(w: World) {
    forall id :: id in w.store ==> WellFormed(w.store[id]) && w.store[id].issueId == id
  }

  ghost predicate PcHolds(w: World) {
    match w.pc
    case Idle => true
    case Closing(old_, next) =>
      old_.issueId in w.store && w.store[old_.issueId] == old_
      && (next.Some? ==> WellFormed(next.value) && next.value.issueId == old_.issueId)
    case Removing(id) => Quiet(w, id)
    case Saving(draft) =>
      WellFormed(draft)
      && (Quiet(w, draft.issueId)
          || (draft.issueId in w.store && IdentityOf(w.store[draft.issueId]) == IdentityOf(draft)))
    case Sending(saved) => saved.issueId in w.store && w.store[saved.issueId] == saved
    case Marking(sent) => sent.issueId in w.store && w.store[sent.issueId] == sent
  }

  ghost predicate Inv(w: World) { StoreWellFormed(w) && NoUntracked(w) && PcHolds(w) }

  ghost predicate Init(w: World) {
    w.store == map[] && w.pc == Idle && forall x :: Firing(w, x) ==> !IssueIdentity(x)
  }

  /** The only identity of an issue that can fire is the stored one; once that is closed, none fires. */
  lemma ClosedIsQuiet(w: World, w': World, old_: Record, at: Time)
    requires Inv(w) && old_.issueId in w.store && w.store[old_.issueId] == old_ && at <= w.now
    requires w'.now == w.now && w'.receiver == w.receiver[IdentityOf(old_) := at]
    ensures Quiet(w', old_.issueId)
  {
    forall x | OfIssue(x, old_.issueId)
      ensures !Firing(w', x)
    {
      if x != IdentityOf(old_) {
        assert Firing(w', x) ==> Firing(w, x);
      }
    }
  }

  lemma ReplacedKeepsTracking(w: World, w': World, r: Record)
    requires Inv(w) && WellFormed(r) && w'.store == w.store[r.issueId := r]
    requires w'.receiver == w.receiver && w'.now == w.now
    requires Quiet(w, r.issueId) || (r.issueId in w.store && IdentityOf(w.store[r.issueId]) == IdentityOf(r))
    ensures NoUntracked(w') && StoreWellFormed(w')
  {
    forall x | Firing(w', x) && IssueIdentity(x)
      ensures Tracked(w', x)
    {
      assert Firing(w, x) && Tracked(w, x);
    }
  }

  lemma PostPreserves(w: World, s: Step)
    requires Inv(w) && s.Post? && Enabled(w, s)
    ensures Inv(Apply(w, s))
  {
    var w' := Apply(w, s);
    var x0 := IdentityOf(if w.pc.Closing? then w.pc.old_ else w.pc.saved);
    assert Tracked(w, x0);
    assert forall x :: x != x0 && Firing(w', x) ==> Firing(w, x);
    assert forall x :: IssueIdentity(x) ==> Tracked(w', x) == Tracked(w, x);
    if w.pc.Closing? && s.how.Done? {
      ClosedIsQuiet(w, w', w.pc.old_, s.at);
    }
  }

  lemma WritePreserves(w: World, s: Step)
    requires Inv(w) && s.Write? && Enabled(w, s)
    ensures Inv(Apply(w, s))
  {
    var w' := Apply(w, s);
    if s.how.Refused? {
      assert forall x :: Firing(w', x) ==> Firing(w, x);
      assert forall x :: IssueIdentity(x) ==> Tracked(w', x) == Tracked(w, x);
    } else if w.pc.Removing? {
      forall x | Firing(w', x) && IssueIdentity(x)
        ensures Tracked(w', x)
      {
        assert Firing(w, x) && Tracked(w, x) && !OfIssue(x, w.pc.id);
      }
    } else {
      ReplacedKeepsTracking(w, w', if w.pc.Saving? then w.pc.draft else w.pc.sent.(lastSentAt := Some(s.at)));
    }
  }

  lemma StepPreserves(w: World, s: Step)
    requires Inv(w) && Enabled(w, s)
    ensures Inv(Apply(w, s))
  {
    if s.Post? {
      PostPreserves(w, s);
    } else if s.Write? {
      WritePreserves(w, s);
    } else {
      var w' := Apply(w, s);
      assert forall x :: IssueIdentity(x) && Firing(w', x) ==> Firing(w, x);
      assert forall x :: IssueIdentity(x) ==> Tracked(w', x) == Tracked(w, x);
    }
  }

  /** In every state of every run, with any failures and crashes, no issue alert fires untracked. */
  lemma {:induction false} NeverUntracked(w: World, steps: seq<Step>)
    requires Inv(w) && ValidRun(w, steps)
    ensures Inv(After(w, steps)) && NoUntracked(After(w, steps))
  {
    if steps != [] {
      NeverUntracked(w, steps[..|steps| - 1]);
      StepPreserves(After(w, steps[..|steps| - 1]), steps[|steps| - 1]);
    }
  }

  lemma RunsFromInit(w: World, steps: seq<Step>)
    requires Init(w) && ValidRun(w, steps)
    ensures NoUntracked(After(w, steps))
  {
    NeverUntracked(w, steps);
  }

  /** An issue never has two alerts firing at once, however often its labels or its destination change,
      and one without a record has none. */
  lemma AtMostOneFires(w: World, steps: seq<Step>, x: Identity, y: Identity, id: string)
    requires Init(w) && ValidRun(w, steps) && OfIssue(x, id) && Firing(After(w, steps), x)
    ensures id in After(w, steps).store
    ensures OfIssue(y, id) && Firing(After(w, steps), y) ==> x == y
  {
    NeverUntracked(w, steps);
    assert Tracked(After(w, steps), x);
  }

  // ---- the test senders ----

  function Endpoint(url: string): string { TrimSlashes(url) + "/api/v2/alerts" }

  /** The path of the receiver's API after the configured URL, however many slashes that ends in. */
  lemma EndpointMeans(url: string)
    requires url == [] || url[|url| - 1] != '/'
    ensures Endpoint(url) == url + "/api/v2/alerts" && Endpoint(url + "/") == Endpoint(url)
  {
    assert (url + "/")[..|url|] == url;
  }

  function TrimSlashes(s: string): string {
    if s != [] && s[|s| - 1] == '/' then TrimSlashes(s[..|s| - 1]) else s
  }

  /** `send_test`: a fixed label set. */
  function ServiceTestLabels(baseUrl: string): Labels {
    map["alertname" := "SoikaTestAlert", "severity" := "info", "test" := "true", "instance" := baseUrl]
  }

  /** `send_project_test`: the project's real labels for a synthetic issue named after the project. */
  function ProjectTestAlert(c: Config, names: Names, vars: map<string, string>, projectId: string, now: Time):
    Result<Alert, AlertError>
  {
    var config := c.(labels := c.labels["alertname" := names.projectTest]);
    match RenderAlert(config, vars["issue_id" := "test-" + projectId], now)
    case Err(e) => Err(e)
    case Ok(alert) => Ok(alert.(labels := alert.labels["test" := "true"]))
  }

  /** Neither test sender can post under the identity of an issue. */
  lemma TestSendersAreDisjoint(endpoint: string, baseUrl: string, c: Config, names: Names,
                               vars: map<string, string>, projectId: string, now: Time)
    ensures !IssueIdentity(Identity(endpoint, ServiceTestLabels(baseUrl)))
    ensures var r := ProjectTestAlert(c, names, vars, projectId, now);
            r.Ok? ==> !IssueIdentity(Identity(endpoint, r.value.labels))
  {
    assert "issue_id"[0] == 'i' && "alertname"[0] == 'a' && "severity"[0] == 's' && "test"[0] == 't';
    assert |"instance"| == 8 && "instance"[1] == 'n' && "issue_id"[1] == 's';
    assert ("test-" + projectId)[0] == 't';
  }
}
