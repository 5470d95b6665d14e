/** The service side of the alert lifecycle (src/alertmanager.rs): `notify`, `resolve`, `reconcile` and the
    paginated sweep, over a mutable store. Every clock reading, write and send is recorded, so that each
    call is a run of the protocol's step relation. */
module Alertmanager {
  import opened Text
  import opened Alerts
  import opened AlertProtocol
  import Templates
  import opened IdOrder

  datatype Project = Project(id: string, name: string, slug: string, teamId: string, muted: bool, orphaned: bool)

  datatype Issue = Issue(id: string, projectId: string, shortId: string, title: string, culprit: Option<string>,
                         level: Option<string>, environment: Option<string>, release: Option<string>,
                         eventCount: string, firstSeen: string, lastSeen: string, unresolved: bool)

  /** What the lifecycle reads but never writes: administrators and ingestion may change it between calls. */
  datatype Environment = Environment(featureOn: bool, config: Config, org: string, baseUrl: string,
                                     projectLabels: map<string, Labels>, names: Names,
                                     severity: map<string, Severity>, defaultSeverity: Option<Severity>,
                                     interval: map<string, int>, defaultInterval: int,
                                     issues: map<string, Issue>, projects: map<string, Project>)

  function OrElse(o: Option<string>, d: string): string { if o.Some? then o.value else d }

  function Variables(env: Environment, p: Project, i: Issue, trigger: string): map<string, string> {
    map["project_name" := p.name, "project_slug" := p.slug, "project_id" := p.id, "team_id" := p.teamId,
        "issue_id" := i.id, "issue_short_id" := i.shortId, "title" := i.title, "culprit" := OrElse(i.culprit, ""),
        "level" := OrElse(i.level, "error"), "environment" := OrElse(i.environment, ""),
        "release" := OrElse(i.release, ""), "event_count" := i.eventCount, "first_seen" := i.firstSeen,
        "last_seen" := i.lastSeen,
        "issue_url" := TrimSlashes(env.baseUrl) + "/projects/" + p.slug + "/issues/" + i.shortId,
        "org_name" := env.org, "trigger" := trigger]
  }

  /** Every documented variable is supplied, so an accepted configuration always renders up to a blank name. */
  lemma VariablesCover(env: Environment, p: Project, i: Issue, trigger: string)
    ensures Templates.Covers(Templates.VARIABLES, Variables(env, p, i, trigger))
  {
    var vars := Variables(env, p, i, trigger);
    assert forall n :: n in Templates.VARIABLES[..6] ==> n in vars;
    assert forall n :: n in Templates.VARIABLES[6..12] ==> n in vars;
    assert forall n :: n in Templates.VARIABLES[12..] ==> n in vars;
    assert Templates.VARIABLES == Templates.VARIABLES[..6] + (Templates.VARIABLES[6..12] + Templates.VARIABLES[12..]);
  }

  lemma IssueIdSupplied(env: Environment, p: Project, i: Issue, trigger: string)
    ensures "issue_id" in Variables(env, p, i, trigger) && Variables(env, p, i, trigger)["issue_id"] == i.id
  {
  }

  function SeverityFor(env: Environment, p: Project): Option<Severity> {
    if p.id in env.severity then Some(env.severity[p.id]) else env.defaultSeverity
  }

  function OwnLabels(env: Environment, p: Project): Labels {
    if p.slug in env.projectLabels then env.projectLabels[p.slug] else map[]
  }

  function EffectiveConfig(env: Environment, p: Project): Config {
    ProjectConfig(env.config, OwnLabels(env, p), env.names, SeverityFor(env, p))
  }

  function RenderFor(env: Environment, p: Project, i: Issue, trigger: string, now: Time): (r: Result<Alert, AlertError>)
    ensures r.Ok? ==> "issue_id" in r.value.labels && r.value.labels["issue_id"] == i.id
  {
    IssueIdSupplied(env, p, i, trigger);
    RenderAlert(EffectiveConfig(env, p), Variables(env, p, i, trigger), now)
  }

  /** What each variable stands for; an issue without a level is an error. */
  lemma ProjectVariables(env: Environment, p: Project, i: Issue, trigger: string)
    ensures var v := Variables(env, p, i, trigger);
            && v["project_name"] == p.name && v["project_slug"] == p.slug && v["project_id"] == p.id
            && v["team_id"] == p.teamId && v["org_name"] == env.org
  {
  }

  lemma IssueVariables(env: Environment, p: Project, i: Issue, trigger: string)
    ensures var v := Variables(env, p, i, trigger);
            && v["issue_id"] == i.id && v["issue_short_id"] == i.shortId && v["title"] == i.title
            && v["event_count"] == i.eventCount && v["trigger"] == trigger
  {
  }

  lemma DetailVariables(env: Environment, p: Project, i: Issue, trigger: string)
    ensures var v := Variables(env, p, i, trigger);
            && Shown(v["culprit"], i.culprit, "") && Shown(v["level"], i.level, "error")
            && Shown(v["environment"], i.environment, "") && Shown(v["release"], i.release, "")
  {
  }

  lemma TimesAndLink(env: Environment, p: Project, i: Issue, trigger: string)
    ensures var v := Variables(env, p, i, trigger); v["first_seen"] == i.firstSeen && v["last_seen"] == i.lastSeen
    ensures env.baseUrl != [] && env.baseUrl[|env.baseUrl| - 1] != '/' ==>
              Variables(env, p, i, trigger)["issue_url"] == env.baseUrl + "/projects/" + p.slug + "/issues/" + i.shortId
  {
  }

  predicate Shown(shown: string, value: Option<string>, missing: string) {
    (value.Some? ==> shown == value.value) && (value.None? ==> shown == missing)
  }

  /** The severity class that counts is the project's own, or else the default. */
  predicate InClass(env: Environment, p: Project, s: Severity) {
    if p.id in env.severity then env.severity[p.id] == s else env.defaultSeverity == Some(s)
  }

  /** A severity class decides two labels: its name in lower case, and the operator's alert name for it. */
  lemma SeverityLabels(env: Environment, p: Project, i: Issue, trigger: string, now: Time)
    requires RenderFor(env, p, i, trigger, now).Ok?
    ensures var labels, vars := RenderFor(env, p, i, trigger, now).value.labels, Variables(env, p, i, trigger);
            && (InClass(env, p, Critical) ==> Labelled(labels, vars, "critical", env.names.critical))
            && (InClass(env, p, Warning) ==> Labelled(labels, vars, "warning", env.names.warning))
            && (InClass(env, p, Info) ==> Labelled(labels, vars, "info", env.names.info))
  {
    var vars := Variables(env, p, i, trigger);
    match SeverityFor(env, p) {
      case None =>
      case Some(s) => ClassLabels(env.config, OwnLabels(env, p), env.names, s, vars, now);
    }
  }

  /** Without a class every label is the project's own template if it has one, or else the channel's. */
  lemma LabelPrecedence(env: Environment, p: Project, i: Issue, trigger: string, now: Time, k: string)
    requires RenderFor(env, p, i, trigger, now).Ok? && p.id !in env.severity && env.defaultSeverity.None?
    requires k != "issue_id" && k != "project_id"
    ensures var labels, vars := RenderFor(env, p, i, trigger, now).value.labels, Variables(env, p, i, trigger);
            var own := if p.slug in env.projectLabels then env.projectLabels[p.slug] else map[];
            && (k in own ==> k in labels && Templates.RenderTemplate(own[k], vars) == Ok(labels[k]))
            && (k !in own && k in env.config.labels ==>
                  k in labels && Templates.RenderTemplate(env.config.labels[k], vars) == Ok(labels[k]))
  {
  }

  /** The alert name in force: the operator's for the severity class, or else the configured template. */
  function AlertnameFor(env: Environment, p: Project): string
    requires "alertname" in env.config.labels
  {
    if SeverityFor(env, p).Some? then NameFor(env.names, SeverityFor(env, p).value)
    else (env.config.labels + OwnLabels(env, p))["alertname"]
  }

  /** For every issue of every project: once the channel's configuration and the project's labels have been
      accepted, rendering fails only on the alert name. Without a severity class that name is a valid
      template too, and only a blank rendering is left. */
  lemma RenderForFailsOnlyOnName(env: Environment, urlOk: bool, p: Project, i: Issue, trigger: string, now: Time)
    requires Accepted(env.config, urlOk) && EntriesValid(OwnLabels(env, p))
    requires "issue_id" !in OwnLabels(env, p) && "project_id" !in OwnLabels(env, p)
    ensures var name := Templates.RenderTemplate(AlertnameFor(env, p), Variables(env, p, i, trigger));
            var r := RenderFor(env, p, i, trigger, now);
            && (r.Ok? <==> name.Ok? && !IsBlank(name.value))
            && (SeverityFor(env, p).None? ==> name.Ok? && (r.Err? ==> r == Err(BlankAlertname)))
  {
    var vars := Variables(env, p, i, trigger);
    VariablesCover(env, p, i, trigger);
    match SeverityFor(env, p) {
      case None => OwnLabelsFailOnlyBlank(env.config, urlOk, OwnLabels(env, p), env.names, vars, now);
      case Some(s) => SeverityNameDecides(env.config, urlOk, OwnLabels(env, p), env.names, s, vars, now);
    }
  }

  predicate Live(env: Environment, id: string) {
    id in env.issues && env.issues[id].projectId in env.projects && env.config.enabled
    && !env.projects[env.issues[id].projectId].muted && !env.projects[env.issues[id].projectId].orphaned
    && env.issues[id].unresolved
  }

  /** Rows carry the key they are stored under. */
  predicate Keyed(env: Environment) { forall id :: id in env.issues ==> env.issues[id].id == id }

  /** What a sweep reads once, at its start; everything else is read again for each entry. */
  predicate SameChannel(a: Environment, b: Environment) {
    a.config == b.config && a.org == b.org && a.featureOn == b.featureOn && a.baseUrl == b.baseUrl
  }

  /** So the lease theorems speak of the runs of the service. */
  predicate AllLeased(steps: seq<Step>) { forall i :: 0 <= i < |steps| ==> Leased(steps[i]) }

  class Service {
    var store: map<string, Record>
    var now: Time
    ghost var receiver: map<Identity, Time>
    ghost var pc: Pc
    ghost const start: World
    ghost var steps: seq<Step>

    ghost function Here(): World
      reads this
    {
      World(store, receiver, now, pc)
    }

    /** The service stands where the recorded run of the protocol has led it. */
    ghost predicate Valid()
      reads this
    {
      Init(start) && ValidRun(start, steps) && After(start, steps) == Here() && AllLeased(steps)
    }

    constructor (clock: Time, ghost remote: map<Identity, Time>)
      requires forall x :: x in remote && remote[x] > clock ==> !IssueIdentity(x)
      ensures Valid() && pc.Idle? && store == map[] && steps == []
    {
      store, now, receiver, pc, steps := map[], clock, remote, Idle, [];
      start := World(map[], remote, clock, Idle);
    }

    lemma Safe()
      requires Valid()
      ensures Inv(Here()) && NoUntracked(Here())
    {
      NeverUntracked(start, steps);
    }

    ghost method Record_(s: Step)
      requires Valid() && Enabled(Here(), s) && Leased(s)
      requires Apply(Here(), s).store == store && Apply(Here(), s).now == now
      modifies this`receiver, this`pc, this`steps
      ensures Valid() && Here() == Apply(old(Here()), s) && steps == old(steps) + [s]
    {
      Extend(start, steps, s);
      var w := Apply(Here(), s);
      receiver, pc, steps := w.receiver, w.pc, steps + [s];
    }

    method Clock() returns (t: Time)
      requires Valid()
      modifies this`now, this`steps
      ensures Valid() && t == now >= old(now) && steps == old(steps) + [Tick(now)]
    {
      var to: Time := *;
      if to < now {
        to := now;
      }
      Extend(start, steps, Tick(to));
      now, steps := to, steps + [Tick(to)];
      t := now;
    }

    /** Post an alert; the caller learns only whether it was acknowledged. */
    method Send(endpoint: string, alert: Alert) returns (ok: bool)
      requires Valid()
      requires (pc.Closing? && endpoint == pc.old_.endpoint && alert == pc.old_.alert.(endsAt := alert.endsAt)
                && alert.endsAt <= now)
            || (pc.Sending? && endpoint == pc.saved.endpoint && alert == pc.saved.alert)
      modifies this`receiver, this`pc, this`steps
      ensures Valid() && old(steps) <= steps
      ensures ok ==> receiver == old(receiver)[Identity(endpoint, alert.labels) := alert.endsAt]
      ensures pc == if !ok then Idle
                    else if old(pc).Sending? then Marking(old(pc).saved)
                    else if old(pc).next.Some? then Saving(old(pc).next.value) else Removing(old(pc).old_.issueId)
    {
      var how: Outcome := *;
      Record_(Post(how, if pc.Closing? then alert.endsAt else now));
      ok := how.Done?;
    }

    method SaveAlert(r: Record, ghost at: Time) returns (ok: bool)
      requires Valid() && at <= now
      requires (pc.Saving? && r == pc.draft) || (pc.Marking? && r == pc.sent.(lastSentAt := Some(at)))
      modifies this`store, this`receiver, this`pc, this`steps
      ensures Valid() && old(steps) <= steps && receiver == old(receiver)
      ensures store == old(store)[r.issueId := r] || (!ok && store == old(store))
      ensures pc == if ok && old(pc).Saving? then Sending(r) else Idle
    {
      var how: Outcome := *;
      ghost var w := Apply(Here(), Write(how, at));
      Extend(start, steps, Write(how, at));
      if !how.Refused? {
        store := store[r.issueId := r];
      }
      pc, steps := w.pc, steps + [Write(how, at)];
      ok := how.Done?;
    }

    method RemoveAlert(id: string) returns (ok: bool)
      requires Valid() && pc == Removing(id)
      modifies this`store, this`receiver, this`pc, this`steps
      ensures Valid() && old(steps) <= steps && receiver == old(receiver) && pc.Idle?
      ensures store == old(store) - {id} || (!ok && store == old(store))
    {
      var how: Outcome := *;
      ghost var w := Apply(Here(), Write(how, now));
      Extend(start, steps, Write(how, now));
      if !how.Refused? {
        store := store - {id};
      }
      pc, steps := w.pc, steps + [Write(how, now)];
      ok := how.Done?;
    }

    /** Post the alert again with an end that has passed. */
    method Resolve(active: Record) returns (ok: bool)
      requires Valid() && pc.Closing? && pc.old_ == active
      modifies this`now, this`receiver, this`pc, this`steps
      ensures Valid() && old(steps) <= steps && now >= old(now)
      ensures ok ==> IdentityOf(active) in receiver && receiver[IdentityOf(active)] <= now
      ensures pc == if !ok then Idle
                    else if old(pc).next.Some? then Saving(old(pc).next.value) else Removing(active.issueId)
    {
      var at := Clock();
      ok := Send(active.endpoint, active.alert.(endsAt := at));
    }

    /** Persist, post, then persist the time of delivery. */
    method Deliver(draft: Record) returns (ok: bool)
      requires Valid() && pc == Saving(draft)
      modifies this
      ensures Valid() && pc.Idle? && old(steps) <= steps && now >= old(now)
      ensures SameExcept(old(store), store, draft.issueId)
      ensures draft.issueId in old(store) ==> draft.issueId in store
      ensures ok ==> Delivered(draft) && store[draft.issueId] == draft.(lastSentAt := store[draft.issueId].lastSentAt)
                     && old(now) <= store[draft.issueId].lastSentAt.value <= now
    {
      ok := SaveAlert(draft, now);
      if !ok {
        return;
      }
      ok := Send(draft.endpoint, draft.alert);
      if !ok {
        return;
      }
      var at := Clock();
      ok := SaveAlert(draft.(lastSentAt := Some(at)), at);
    }

    /** The part of `notify` that touches the world: close what is recorded for the issue, then deliver. */
    method Announce(pending: Record) returns (ok: bool)
      requires Valid() && pc.Idle? && WellFormed(pending) && pending.lastSentAt.None?
      modifies this
      ensures Valid() && pc.Idle? && old(steps) <= steps && now >= old(now)
      ensures SameExcept(old(store), store, pending.issueId)
      ensures pending.issueId in old(store) ==> pending.issueId in store
      ensures ok ==> Delivered(pending) && store[pending.issueId] == pending.(lastSentAt := store[pending.issueId].lastSentAt)
                     && old(now) <= store[pending.issueId].lastSentAt.value <= now
    {
      Record_(Notify(pending));
      if pending.issueId in store {
        var old_ := store[pending.issueId];
        ok := Resolve(old_);
        if !ok {
          return;
        }
      }
      ok := Deliver(pending);
    }

    /** A new issue or regression. On success exactly this alert is recorded as delivered and known to the
        receiver; no other issue's record changes. */
    method NotifyIssue(env: Environment, project: Project, issue: Issue, trigger: string) returns (ok: bool)
      requires Valid() && pc.Idle? && IsUuid(issue.id)
      modifies this
      ensures Valid() && pc.Idle? && old(steps) <= steps && now >= old(now)
      ensures SameExcept(old(store), store, issue.id)
      ensures !env.featureOn || !env.config.enabled ==> ok && store == old(store) && receiver == old(receiver)
      ensures ok && env.featureOn && env.config.enabled ==>
                exists t: Time, u: Time :: old(now) <= t <= u <= now
                  && RenderFor(env, project, issue, trigger, t).Ok?
                  && Delivered(FreshRecord(env, project, issue, trigger, t, u))
      ensures ok && env.featureOn && env.config.enabled ==>
                issue.id in store && SentWithin(env, project, store[issue.id], receiver, old(now), now)
                && old(now) <= store[issue.id].alert.startsAt <= now && store[issue.id].trigger == trigger
    {
      if !env.featureOn || !env.config.enabled {
        return true;
      }
      var t := Clock();
      var rendered := RenderFor(env, project, issue, trigger, t);
      if rendered.Err? {
        return false;
      }
      var u := Clock();
      ok := Announce(FreshRecord(env, project, issue, trigger, t, u));
    }

    /** The part of `reconcile` for an alert whose issue is no longer live. */
    method Close(id: string) returns (ok: bool)
      requires Valid() && pc.Idle? && id in store
      modifies this
      ensures Valid() && pc.Idle? && old(steps) <= steps && now >= old(now)
      ensures SameExcept(old(store), store, id)
      ensures ok ==> id !in store && var x := IdentityOf(old(store)[id]); x in receiver && receiver[x] <= now
    {
      var saved := store[id];
      Safe();
      Record_(Reconcile(id, false, "", saved.alert, 0, Reads(now, now, now, now)));
      ok := Resolve(saved);
      if !ok {
        return;
      }
      ok := RemoveAlert(id);
    }

    /** The part of `reconcile` that renews a live alert, or replaces it when its identity changed. */
    method Renew(id: string, endpoint: string, alert: Alert, seconds: int, started: Time, rendered: Time)
      returns (ok: bool)
      requires Valid() && pc.Idle? && id in store && started <= rendered <= now
      requires "issue_id" in alert.labels && alert.labels["issue_id"] == id
      requires Leased(Reconcile(id, true, endpoint, alert, seconds, Reads(started, rendered, rendered, rendered)))
      modifies this
      ensures Valid() && pc.Idle? && old(steps) <= steps && now >= old(now)
      ensures SameExcept(old(store), store, id) && id in store
      ensures ok ==> IdentityOf(store[id]) == Identity(endpoint, alert.labels) && store[id].lastSentAt.Some?
      ensures ok ==> store[id] == old(store)[id]
                     || RenewedTo(old(store)[id], alert, store[id], receiver, old(now), now)
      ensures ok && DueAt(old(store)[id], seconds, old(now)) ==> store[id].lastSentAt.value >= old(now)
      ensures IdentityOf(old(store)[id]) == Identity(endpoint, alert.labels) && !DueAt(old(store)[id], seconds, now) ==>
                ok && store == old(store) && receiver == old(receiver)
    {
      Safe();
      var saved := store[id];
      var changed := saved.endpoint != endpoint || saved.alert.labels != alert.labels;
      var checked := Clock();
      var leased := Clock();
      Record_(Reconcile(id, true, endpoint, alert, seconds, Reads(started, rendered, checked, leased)));
      if !changed && NotDue(saved, seconds, checked, leased) {
        return true;
      }
      ok := Resend(id, endpoint, alert, changed);
    }

    /** Close the old identity if it changed, then deliver the new alert. */
    method Resend(id: string, endpoint: string, alert: Alert, changed: bool) returns (ok: bool)
      requires Valid() && id in store && store[id].issueId == id
      requires changed <==> Identity(endpoint, alert.labels) != IdentityOf(store[id])
      requires var next := store[id].(endpoint := endpoint, alert := alert, lastSentAt := None);
               pc == if changed then Closing(store[id], Some(next))
                     else Saving(next.(alert := alert.(startsAt := store[id].alert.startsAt)))
      modifies this
      ensures Valid() && pc.Idle? && old(steps) <= steps && now >= old(now)
      ensures SameExcept(old(store), store, id) && id in store
      ensures ok ==> RenewedTo(old(store)[id], alert, store[id], receiver, old(now), now)
                     && IdentityOf(store[id]) == Identity(endpoint, alert.labels)
    {
      var saved := store[id];
      var next := saved.(endpoint := endpoint, alert := alert, lastSentAt := None);
      if changed {
        ok := Resolve(saved);
        if !ok {
          return;
        }
      } else {
        next := next.(alert := alert.(startsAt := saved.alert.startsAt));
      }
      ok := Deliver(next);
    }

    /** Bring one tracked alert in line with its issue. */
    method ReconcileOne(env: Environment, id: string) returns (ok: bool)
      requires Valid() && pc.Idle? && id in store && Keyed(env)
      modifies this
      ensures Valid() && pc.Idle? && old(steps) <= steps && now >= old(now)
      ensures SameExcept(old(store), store, id)
      ensures Live(env, id) ==> id in store
      ensures ok && !Live(env, id) ==>
                id !in store && var x := IdentityOf(old(store)[id]); x in receiver && receiver[x] <= now
      ensures ok && Live(env, id) ==>
                store[id].endpoint == Endpoint(env.config.url) && store[id].lastSentAt.Some?
                && exists t :: old(now) <= t <= now && RenderedAs(env, id, old(store)[id].trigger, t, store[id].alert.labels)
      ensures ok && Live(env, id) ==>
                InLine(env, ProjectOf(env, id), old(store)[id], store[id], receiver, old(now), now)
    {
      ghost var was, from := store[id], now;
      var started := Clock();
      if !Live(env, id) {
        ok := Close(id);
        return;
      }
      ok := RenewFor(env, id, started);
      if ok {
        InLineEarlier(env, ProjectOf(env, id), was, store[id], receiver, from, started, now);
      }
    }

    /** The part of `reconcile` for a live alert: render it, lease it, renew it. */
    method RenewFor(env: Environment, id: string, started: Time) returns (ok: bool)
      requires Valid() && pc.Idle? && id in store && Keyed(env) && Live(env, id) && started == now
      modifies this
      ensures Valid() && pc.Idle? && old(steps) <= steps && now >= old(now)
      ensures SameExcept(old(store), store, id) && id in store
      ensures ok ==> store[id].endpoint == Endpoint(env.config.url)
                     && RenderedAs(env, id, old(store)[id].trigger, started, store[id].alert.labels)
      ensures ok ==> InLine(env, ProjectOf(env, id), old(store)[id], store[id], receiver, started, now)
    {
      var issue := env.issues[id];
      var project := env.projects[issue.projectId];
      var rendered := RenderFor(env, project, issue, store[id].trigger, started);
      if rendered.Err? {
        return false;
      }
      var seconds := if project.id in env.interval then env.interval[project.id] else env.defaultInterval;
      var t := Clock();
      var alert := rendered.value.(endsAt := t + AlertTtl(seconds) * SECOND);
      ok := Renew(id, Endpoint(env.config.url), alert, seconds, started, t);
      if ok {
        RenewedIsInLine(env, project, old(store)[id], alert, store[id], receiver, started, t, now);
      }
    }

    lemma KeysAbove()
      requires Valid()
      ensures forall id :: id in store ==> Less("", id)
    {
      Safe();
    }

    lemma EmptyStoreIsQuiet()
      requires Valid() && store == map[]
      ensures forall x :: IssueIdentity(x) ==> !Firing(Here(), x)
    {
      Safe();
    }

    /** Issues, projects, labels, severities and intervals as they are now. */
    method Look(env: Environment) returns (seen: Environment)
      requires Keyed(env)
      ensures SameChannel(env, seen) && Keyed(seen)
    {
      seen := *;
      if !Keyed(seen) || !SameChannel(env, seen) {
        seen := env;
      }
    }

    /** Between two entries of a sweep: notifications, as many as it may be, for issues already tracked. */
    method Meanwhile()
      requires Valid() && pc.Idle?
      modifies this
      ensures Valid() && pc.Idle? && old(steps) <= steps && now >= old(now)
      ensures store.Keys == old(store.Keys)
    {
      var left: int := *;
      while left > 0
        invariant Valid() && pc.Idle? && old(steps) <= steps && now >= old(now)
        invariant store.Keys == old(store.Keys)
      {
        var pending: Record := *;
        if pending.issueId in store && WellFormed(pending) && pending.lastSentAt.None? {
          var _ := Announce(pending);
        }
        left := left - 1;
      }
    }

    /** One page of the sweep, each entry under its own hold of the mutex. */
    method SweepPage(env: Environment, page: seq<string>, ghost first: map<string, Record>, start_: string,
                     swept: seq<string>, seen: map<string, Environment>, failed: set<string>, ghost todo: set<string>)
      returns (after: string, swept': seq<string>, seen': map<string, Environment>, failed': set<string>,
               ghost todo': set<string>)
      requires Valid() && pc.Idle? && Keyed(env) && page != []
      requires SweepState(env, seen, first, store, start_, swept, failed, todo) && PageLeft(todo, page, 0)
      modifies this
      ensures Valid() && pc.Idle? && old(steps) <= steps && now >= old(now)
      ensures SweepState(env, seen', first, store, after, swept', failed', todo') && todo' < todo
    {
      after, swept', seen', failed', todo' := start_, swept, seen, failed, todo;
      var i := 0;
      while i < |page|
        invariant 0 <= i <= |page|
        invariant Valid() && pc.Idle? && old(steps) <= steps && now >= old(now)
        invariant SweepState(env, seen', first, store, after, swept', failed', todo') && PageLeft(todo', page, i)
        invariant if i == 0 then todo' == todo else todo' < todo
      {
        var id := page[i];
        Meanwhile();
        ghost var was, reached, before := store, after, failed';
        after := id;
        var current := Look(env);
        var done := ReconcileOne(current, id);
        if !done {
          failed' := failed' + {id};
        }
        SweepNext(env, seen', current, first, was, store, reached, swept', before, failed', todo', page, i);
        swept', seen', todo', i := swept' + [id], seen'[id := current], todo' - {id}, i + 1;
      }
    }

    /** One sweep: page by page, a hundred keys at a time. Records may go while a page is being worked through,
        and issues already tracked may be notified about between any two entries. A completed sweep has
        reconciled every record present at its start exactly once, in order, each as its issue stood when its
        turn came (`seen`); an aborted one a prefix of them. Once the channel is disabled, a sweep without
        failures leaves nothing tracked and nothing firing. */
    method Refresh(env: Environment)
      returns (ok: bool, swept: seq<string>, seen: map<string, Environment>, failed: set<string>)
      requires Valid() && pc.Idle? && Keyed(env)
      modifies this
      ensures Valid() && pc.Idle? && old(steps) <= steps && now >= old(now)
      ensures exists after, todo ::
                SweepState(env, seen, old(store), store, after, swept, failed, todo) && (ok && env.featureOn ==> todo == {})
      ensures !env.featureOn ==> ok && swept == [] && store == old(store)
      ensures ok && failed == {} && env.featureOn && !env.config.enabled ==>
                store == map[] && forall x :: IssueIdentity(x) ==> !Firing(Here(), x)
    {
      swept, seen, failed := [], map[], {};
      KeysAbove();
      var after := "";
      ghost var todo := store.Keys;
      assert SweepState(env, seen, old(store), store, after, swept, failed, todo);
      if !env.featureOn {
        return true, swept, seen, failed;
      }
      while true
        invariant Valid() && pc.Idle? && old(steps) <= steps && now >= old(now)
        invariant SweepState(env, seen, old(store), store, after, swept, failed, todo)
        decreases todo
      {
        var broken: bool := *;
        if broken {
          return false, swept, seen, failed;
        }
        var page := Page(store.Keys, after, 100);
        if page == [] {
          assert todo == {};
          if failed == {} && !env.config.enabled {
            assert store == map[];
            EmptyStoreIsQuiet();
          }
          return true, swept, seen, failed;
        }
        PageIsNext(env, seen, old(store), store, after, swept, failed, todo, page);
        after, swept, seen, failed, todo := SweepPage(env, page, old(store), after, swept, seen, failed, todo);
      }
    }

    ghost predicate Delivered(r: Record)
      reads this
    {
      && r.issueId in store && IdentityOf(store[r.issueId]) == IdentityOf(r) && store[r.issueId].lastSentAt.Some?
      && store[r.issueId].trigger == r.trigger
      && IdentityOf(r) in receiver && receiver[IdentityOf(r)] == r.alert.endsAt == store[r.issueId].alert.endsAt
    }
  }

  /** The interval in force for a project: its own, or else the default. */
  function Interval(env: Environment, p: Project): int {
    if p.id in env.interval then env.interval[p.id] else env.defaultInterval
  }

  function ProjectOf(env: Environment, id: string): Project
    requires Live(env, id)
  {
    env.projects[env.issues[id].projectId]
  }

  /** The alert was sent between `from` and `to`, with a lease of five minutes or three intervals, whichever is
      longer, and the receiver holds that lease. */
  predicate SentWithin(env: Environment, p: Project, r: Record, receiver: map<Identity, Time>, from: Time, to: Time) {
    var seconds := Interval(env, p);
    var lease := (if 3 * seconds > 300 then 3 * seconds else 300) * 1_000_000_000;
    && r.lastSentAt.Some? && from <= r.lastSentAt.value <= to
    && IdentityOf(r) in receiver && receiver[IdentityOf(r)] == r.alert.endsAt
    && from + lease <= r.alert.endsAt <= to + lease
  }

  /** The interval has passed since the last delivery, or the lease ends within one. */
  predicate DueAt(r: Record, seconds: int, t: Time) {
    r.lastSentAt.None? || r.lastSentAt.value + seconds * 1_000_000_000 <= t
    || r.alert.endsAt <= t + seconds * 1_000_000_000
  }

  /** The record holds the new alert, under the start of the old one if it is still the same alert. */
  predicate RenewedTo(was: Record, alert: Alert, r: Record, receiver: map<Identity, Time>, from: Time, to: Time) {
    && r.issueId == was.issueId && r.trigger == was.trigger
    && r.alert == alert.(startsAt := if IdentityOf(r) == IdentityOf(was) then was.alert.startsAt else alert.startsAt)
    && r.lastSentAt.Some? && from <= r.lastSentAt.value <= to
    && IdentityOf(r) in receiver && receiver[IdentityOf(r)] == r.alert.endsAt
  }

  /** What a successful pass over a live alert leaves: the record as it was if nothing was due, or sent again. The
      same alert keeps its start, another one starts now. */
  predicate InLine(env: Environment, p: Project, was: Record, r: Record, receiver: map<Identity, Time>, from: Time, to: Time) {
    && r.trigger == was.trigger && r.lastSentAt.Some?
    && (r == was || SentWithin(env, p, r, receiver, from, to))
    && (DueAt(was, Interval(env, p), from) ==> r.lastSentAt.value >= from)
    && (if IdentityOf(r) == IdentityOf(was) then r.alert.startsAt == was.alert.startsAt
        else from <= r.alert.startsAt <= to)
  }

  lemma InLineEarlier(env: Environment, p: Project, was: Record, r: Record, receiver: map<Identity, Time>,
                      from: Time, later: Time, to: Time)
    requires from <= later && InLine(env, p, was, r, receiver, later, to)
    ensures InLine(env, p, was, r, receiver, from, to)
  {
  }

  lemma RenewedIsInLine(env: Environment, p: Project, was: Record, alert: Alert, r: Record, receiver: map<Identity, Time>,
                        from: Time, t: Time, to: Time)
    requires from <= t <= to && alert.endsAt == t + AlertTtl(Interval(env, p)) * SECOND && from <= alert.startsAt <= t
    requires r.lastSentAt.Some? && r.alert.labels == alert.labels
    requires r == was || RenewedTo(was, alert, r, receiver, t, to)
    requires DueAt(was, Interval(env, p), t) ==> r.lastSentAt.value >= t
    ensures InLine(env, p, was, r, receiver, from, to)
  {
  }

  ghost predicate SameExcept(a: map<string, Record>, b: map<string, Record>, id: string) {
    forall i :: i != id ==> (i in a <==> i in b) && (i in a ==> a[i] == b[i])
  }

  /** A sweep that has reached `after`: what lies above it is still there and still to do. */
  ghost predicate SweepState(env: Environment, seen: map<string, Environment>, was: map<string, Record>,
                             store: map<string, Record>, after: string, swept: seq<string>, failed: set<string>,
                             todo: set<string>)
  {
    && Ascending(swept) && store.Keys <= was.Keys
    && (forall id :: id in swept ==> id in was && (id == after || Less(id, after)))
    && (forall id :: id in was ==> id in swept || id in todo)
    && (forall id :: id in todo ==> id in was && id in store && Less(after, id))
    && (forall id :: id in swept ==> id in seen && SameChannel(env, seen[id]))
    && (forall id :: id in swept && id !in failed ==> (id in store <==> Live(seen[id], id)))
  }

  /** The rest of the page comes next in what is to do. */
  ghost predicate PageLeft(todo: set<string>, page: seq<string>, i: nat) {
    && i <= |page| && Ascending(page)
    && (forall k :: 0 <= k < i ==> page[k] !in todo)
    && (forall k :: i <= k < |page| ==> page[k] in todo)
    && (forall x, k :: x in todo && x !in page && 0 <= k < |page| ==> Less(page[k], x))
  }

  /** A sweep with nothing left to do visited exactly the records it started with, each once. */
  lemma SweepIsComplete(env: Environment, seen: map<string, Environment>, was: map<string, Record>,
                        store: map<string, Record>, after: string, swept: seq<string>, failed: set<string>)
    requires SweepState(env, seen, was, store, after, swept, failed, {})
    ensures (set id | id in swept) == was.Keys && |swept| == |was|
    ensures forall i, j :: 0 <= i < j < |swept| ==> swept[i] != swept[j]
  {
    forall i, j | 0 <= i < j < |swept|
      ensures swept[i] != swept[j]
    {
      Irreflexive(swept[i]);
    }
    DistinctSize(swept);
    assert (set id | id in swept) == was.Keys;
  }

  lemma {:induction false} DistinctSize(s: seq<string>)
    requires forall i, j :: 0 <= i < j < |s| ==> s[i] != s[j]
    ensures |set x | x in s| == |s|
  {
    if s != [] {
      var n := |s| - 1;
      DistinctSize(s[..n]);
      assert (set x | x in s) == (set x | x in s[..n]) + {s[n]};
    }
  }

  lemma PageIsNext(env: Environment, seen: map<string, Environment>, first: map<string, Record>,
                   store: map<string, Record>, after: string, swept: seq<string>, failed: set<string>,
                   todo: set<string>, page: seq<string>)
    requires SweepState(env, seen, first, store, after, swept, failed, todo) && IsPage(store.Keys, after, 100, page)
    ensures PageLeft(todo, page, 0)
  {
    forall x | x in page
      ensures x in todo
    {
      Irreflexive(x);
      if Less(x, after) {
        Transitive(x, after, x);
      }
    }
    forall x, k | x in todo && x !in page && 0 <= k < |page|
      ensures Less(page[k], x)
    {
      assert page[k] in page;
    }
  }

  lemma SweepNext(env: Environment, seen: map<string, Environment>, current: Environment, first: map<string, Record>,
                  was: map<string, Record>, store: map<string, Record>, after: string, swept: seq<string>,
                  failed: set<string>, failed': set<string>, todo: set<string>, page: seq<string>, i: nat)
    requires SweepState(env, seen, first, was, after, swept, failed, todo) && PageLeft(todo, page, i) && i < |page|
    requires SameExcept(was, store, page[i]) && failed <= failed'
    requires SameChannel(env, current) && (page[i] !in failed' ==> (page[i] in store <==> Live(current, page[i])))
    ensures SweepState(env, seen[page[i] := current], first, store, page[i], swept + [page[i]], failed', todo - {page[i]})
    ensures PageLeft(todo - {page[i]}, page, i + 1)
  {
    var id := page[i];
    BelowNext(after, swept, id);
    AboveNext(todo, page, i);
    AscendingAppend(swept, id);
    forall x | x in swept
      ensures x != id
    {
      Irreflexive(id);
    }
  }

  lemma BelowNext(after: string, swept: seq<string>, id: string)
    requires Less(after, id) && forall x :: x in swept ==> x == after || Less(x, after)
    ensures forall x :: x in swept ==> Less(x, id)
  {
    forall x | x in swept && x != after
      ensures Less(x, id)
    {
      Transitive(x, after, id);
    }
  }

  lemma AboveNext(todo: set<string>, page: seq<string>, i: nat)
    requires PageLeft(todo, page, i) && i < |page|
    ensures forall x :: x in todo && x != page[i] ==> Less(page[i], x)
    ensures PageLeft(todo - {page[i]}, page, i + 1)
  {
    forall x | x in todo && x != page[i]
      ensures Less(page[i], x)
    {
      if x in page {
        var k :| 0 <= k < |page| && page[k] == x;
        assert k > i;
      }
    }
    forall k | i < k < |page|
      ensures page[k] != page[i]
    {
      Irreflexive(page[i]);
    }
  }

  /** The labels an issue's alert would have at time `t`. */
  ghost predicate RenderedAs(env: Environment, id: string, trigger: string, t: Time, labels: Labels)
    requires Live(env, id)
  {
    var issue := env.issues[id];
    var r := RenderFor(env, env.projects[issue.projectId], issue, trigger, t);
    r.Ok? && r.value.labels == labels
  }

  function FreshRecord(env: Environment, p: Project, i: Issue, trigger: string, t: Time, u: Time): (r: Record)
    requires RenderFor(env, p, i, trigger, t).Ok?
    ensures r.issueId == i.id && r.trigger == trigger && r.lastSentAt.None? && (IsUuid(i.id) ==> WellFormed(r))
  {
    var alert := RenderFor(env, p, i, trigger, t).value;
    Record(i.id, Endpoint(env.config.url), trigger,
           alert.(endsAt := u + AlertTtl(Interval(env, p)) * SECOND), None)
  }
}
