/** The synchronizing transaction itself (src/adapters/config_sync.rs): sequential updates of mutable tables and
    of a report, loop by loop, each proved against the table functions of `ConfigSync`. */
module ConfigDatabase {
  import opened Text
  import opened Upserts
  import opened ConfigFiles
  import opened ConfigSync
  import opened SyncHistory
  import Retry

  function Count(actions: seq<Action>, kind: ActionKind): nat {
    if actions == [] then 0
    else Count(actions[..|actions| - 1], kind) + (if actions[|actions| - 1].kind == kind then 1 else 0)
  }

  lemma CountAppend(actions: seq<Action>, a: Action, k: ActionKind)
    ensures Count(actions + [a], k) == Count(actions, k) + (if a.kind == k then 1 else 0)
  {
    assert (actions + [a])[..|actions|] == actions;
  }

  class SyncReport {
    var actions: seq<Action>
    var created: nat
    var updated: nat
    var unchanged_: nat
    var restored: nat
    var orphaned: nat
    var deleted: nat

    /** Each counter is the number of recorded actions of its kind. */
    ghost predicate Valid()
      reads this
    {
      created == Count(actions, Create) && updated == Count(actions, Update)
      && unchanged_ == Count(actions, Unchanged) && restored == Count(actions, Restore)
      && orphaned == Count(actions, Orphan) && deleted == Count(actions, Remove)
    }

    constructor ()
      ensures Valid() && actions == []
    {
      actions, created, updated, unchanged_, restored, orphaned, deleted := [], 0, 0, 0, 0, 0, 0;
    }

    method Record(entity: Entity, key: string, kind: ActionKind)
      requires Valid()
      modifies this
      ensures Valid() && actions == old(actions) + [Action(entity, key, kind)]
    {
      match kind {
        case Create => created := created + 1;
        case Update => updated := updated + 1;
        case Unchanged => unchanged_ := unchanged_ + 1;
        case Restore => restored := restored + 1;
        case Orphan => orphaned := orphaned + 1;
        case Remove => deleted := deleted + 1;
      }
      forall k
        ensures Count(actions + [Action(entity, key, kind)], k) == Count(actions, k) + (if k == kind then 1 else 0)
      {
        CountAppend(actions, Action(entity, key, kind), k);
      }
      actions := actions + [Action(entity, key, kind)];
    }
  }

  // ---- grants as sets of pairs ----

  function RowPairs(m: map<string, Role>): set<(string, Role)> { set k | k in m :: (k, m[k]) }

  function GrantPairs(gs: seq<Grant>): set<(string, Role)> { set i | 0 <= i < |gs| :: (gs[i].to, gs[i].role) }

  lemma {:induction false} GrantMapKeys(gs: seq<Grant>)
    ensures GrantMap(gs).Keys == set i | 0 <= i < |gs| :: gs[i].to
  {
    if gs != [] {
      var n := |gs| - 1;
      GrantMapKeys(gs[..n]);
      assert (set i | 0 <= i < |gs| :: gs[i].to) == (set i | 0 <= i < n :: gs[..n][i].to) + {gs[n].to};
    }
  }

  lemma AddedPair(m: map<string, Role>, k: string, r: Role)
    requires k !in m
    ensures RowPairs(m[k := r]) == RowPairs(m) + {(k, r)}
  {
    var m' := m[k := r];
    forall j | j in m
      ensures (j, m[j]) in RowPairs(m')
    {
      assert m'[j] == m[j];
    }
    assert m'[k] == r;
  }

  lemma {:induction false} GrantMapAt(gs: seq<Grant>)
    requires DistinctGroups(gs)
    ensures RowPairs(GrantMap(gs)) == GrantPairs(gs)
  {
    if gs != [] {
      var n := |gs| - 1;
      GrantMapAt(gs[..n]);
      GrantMapKeys(gs[..n]);
      AddedPair(GrantMap(gs[..n]), gs[n].to, gs[n].role);
      assert forall i :: 0 <= i < n ==> gs[..n][i] == gs[i];
      assert GrantPairs(gs) == GrantPairs(gs[..n]) + {(gs[n].to, gs[n].role)};
    }
  }

  /** Comparing the stored rows with the declared grants as sets of pairs is comparing the tables. */
  lemma PairsDecide(m: map<string, Role>, gs: seq<Grant>)
    requires DistinctGroups(gs)
    ensures RowPairs(m) == GrantPairs(gs) <==> m == GrantMap(gs)
  {
    GrantMapAt(gs);
    PairsInjective(m, GrantMap(gs));
  }

  lemma PairsInjective(a: map<string, Role>, b: map<string, Role>)
    ensures RowPairs(a) == RowPairs(b) <==> a == b
  {
    if RowPairs(a) == RowPairs(b) {
      forall k | k in a
        ensures k in b && a[k] == b[k]
      {
        assert (k, a[k]) in RowPairs(b);
      }
      forall k | k in b
        ensures k in a
      {
        assert (k, b[k]) in RowPairs(a);
      }
      assert a.Keys == b.Keys;
    }
  }

  // ---- membership while users are being worked through ----

  /** The role each user should have, as a function. */
  function RoleOf(t: Team, s: State): string -> Option<Role> {
    (u: string) => if u in s.users then RoleFor(t, s.users[u], GroupsOf(s, u)) else None
  }

  /** The membership once the users in `done` have been given the role that `role` computes. */
  function GivenRoles(members: map<string, Member>, role: string -> Option<Role>, done: set<string>, now: Time):
    map<string, Member>
  {
    map u | u in members.Keys + done && (u in done ==> role(u).Some?)
    :: if u in done then Member(role(u).value, if u in members then members[u].createdAt else now) else members[u]
  }

  lemma NextRole(members: map<string, Member>, role: string -> Option<Role>, done: set<string>, u: string, now: Time)
    requires u !in done
    ensures GivenRoles(members, role, done + {u}, now) == WithRole(GivenRoles(members, role, done, now), u, role(u), now)
  {
    var a, b := GivenRoles(members, role, done + {u}, now), WithRole(GivenRoles(members, role, done, now), u, role(u), now);
    assert a.Keys == b.Keys;
  }

  function MembersSoFar(t: Team, s: State, done: set<string>, now: Time): map<string, Member> {
    GivenRoles(t.members, RoleOf(t, s), done, now)
  }

  lemma NextTeam(t: Team, s: State, done: set<string>, u: string, now: Time)
    requires u in s.users && u !in done && done <= s.users.Keys
    ensures ReconcileMember(t.(members := MembersSoFar(t, s, done, now)), u, s.users[u], GroupsOf(s, u), now)
            == t.(members := MembersSoFar(t, s, done + {u}, now))
  {
    NextRole(t.members, RoleOf(t, s), done, u, now);
  }

  lemma Overwrite(base: map<string, Team>, name: string, a: Team, b: Team)
    ensures base[name := a][name := b] == base[name := b]
  {
  }

  lemma AllMembers(t: Team, s: State, now: Time)
    ensures MembersSoFar(t, s, {}, now) == t.members
    ensures MembersSoFar(t, s, s.users.Keys, now) == ReconciledMembers(t, s, now)
  {
  }

  // ---- the log of pruned rows ----

  /** `log` mentions every key of `keys` once, with the given kind, and nothing else. */
  ghost predicate LogOf(log: seq<Action>, entity: Entity, kind: ActionKind, keys: set<string>) {
    && |log| == |keys|
    && (forall i :: 0 <= i < |log| ==> log[i] == Action(entity, log[i].key, kind) && log[i].key in keys)
    && (forall k :: k in keys ==> Action(entity, k, kind) in log)
  }

  lemma LogAppend(log: seq<Action>, entity: Entity, kind: ActionKind, keys: set<string>, k: string)
    requires LogOf(log, entity, kind, keys) && k !in keys
    ensures LogOf(log + [Action(entity, k, kind)], entity, kind, keys + {k})
  {
  }

  /** The undeclared rows that pruning acts on. */
  function ProjectsToPrune(projects: map<string, Project>, declared: set<string>, policy: OrphanPolicy): set<string> {
    set k | k in projects && k !in declared && (policy.Delete? || projects[k].orphanedAt.None?)
  }

  function TeamsToPrune(teams: map<string, Team>, declared: set<string>, policy: OrphanPolicy): set<string> {
    set k | k in teams && k !in declared && (policy.Delete? || teams[k].orphanedAt.None?)
  }

  /** Pruning one more project: `keep` are the declared ones and those still to come. */
  lemma PruneNextProject(projects: map<string, Project>, keep: set<string>, k: string, policy: OrphanPolicy, now: Time)
    requires k in projects && k in keep
    ensures var was, is_ := PruneProjects(projects, keep, policy, now), PruneProjects(projects, keep - {k}, policy, now);
            && k in was && was[k] == projects[k]
            && is_ == if policy.Delete? then was - {k}
                      else if projects[k].orphanedAt.Some? then was
                      else was[k := projects[k].(orphanedAt := Some(now))]
    ensures ProjectsToPrune(projects, keep - {k}, policy)
            == ProjectsToPrune(projects, keep, policy)
               + (if policy.Delete? || projects[k].orphanedAt.None? then {k} else {})
  {
  }

  lemma PruneNextEvents(events: map<string, string>, projects: map<string, Project>, keep: set<string>, k: string)
    requires k in projects && k in keep
    ensures var was := PruneEvents(events, projects, keep, Delete);
            PruneEvents(events, projects, keep - {k}, Delete)
            == map e | e in was && was[e] != projects[k].keys.id :: was[e]
  {
    var was, is_ := PruneEvents(events, projects, keep, Delete), PruneEvents(events, projects, keep - {k}, Delete);
    forall e | e in is_
      ensures e in was && was[e] != projects[k].keys.id
    {
    }
    forall e | e in was && was[e] != projects[k].keys.id
      ensures e in is_
    {
    }
  }

  lemma PruneNextTeam(teams: map<string, Team>, keep: set<string>, k: string, policy: OrphanPolicy, now: Time)
    requires k in teams && k in keep
    ensures var was, is_ := PruneTeams(teams, keep, policy, now), PruneTeams(teams, keep - {k}, policy, now);
            && k in was && was[k] == teams[k]
            && is_ == if policy.Delete? then was - {k}
                      else if teams[k].orphanedAt.Some? then was
                      else was[k := teams[k].(orphanedAt := Some(now))]
    ensures TeamsToPrune(teams, keep - {k}, policy)
            == TeamsToPrune(teams, keep, policy) + (if policy.Delete? || teams[k].orphanedAt.None? then {k} else {})
  {
  }

  function PruneKind(policy: OrphanPolicy): ActionKind { if policy.Readonly? then Orphan else Remove }

  function ProjectLog(row: Project, slug: string, policy: OrphanPolicy): seq<Action> {
    if policy.Readonly? && row.orphanedAt.Some? then [] else [Action(ProjectEntity, slug, PruneKind(policy))]
  }

  function TeamLog(row: Team, name: string, policy: OrphanPolicy): seq<Action> {
    if policy.Readonly? && row.orphanedAt.Some? then [] else [Action(TeamEntity, name, PruneKind(policy))]
  }

  /** The tables and the log once everything outside `keep` has been pruned. */
  ghost predicate ProjectsPruned(ps: map<string, Project>, es: map<string, string>, keep: set<string>, policy: OrphanPolicy,
                                 now: Time, projects: map<string, Project>, events: map<string, string>, log: seq<Action>)
  {
    && projects == PruneProjects(ps, keep, policy, now) && events == PruneEvents(es, ps, keep, policy)
    && LogOf(log, ProjectEntity, PruneKind(policy), ProjectsToPrune(ps, keep, policy))
  }

  ghost predicate TeamsPruned(ts: map<string, Team>, keep: set<string>, policy: OrphanPolicy, now: Time,
                              teams: map<string, Team>, log: seq<Action>)
  {
    && teams == PruneTeams(ts, keep, policy, now)
    && LogOf(log, TeamEntity, PruneKind(policy), TeamsToPrune(ts, keep, policy))
  }

  /** What `prune_project` does to one row. */
  ghost predicate ProjectStep(slug: string, policy: OrphanPolicy, now: Time, ps: map<string, Project>, es: map<string, string>,
                              ps': map<string, Project>, es': map<string, string>)
    requires slug in ps
  {
    if policy.Delete? then
      ps' == ps - {slug} && es' == map e | e in es && es[e] != ps[slug].keys.id :: es[e]
    else
      es' == es && ps' == if ps[slug].orphanedAt.Some? then ps else ps[slug := ps[slug].(orphanedAt := Some(now))]
  }

  ghost predicate TeamStep(name: string, policy: OrphanPolicy, now: Time, ts: map<string, Team>, ts': map<string, Team>)
    requires name in ts
  {
    ts' == if policy.Delete? then ts - {name}
           else if ts[name].orphanedAt.Some? then ts
           else ts[name := ts[name].(orphanedAt := Some(now))]
  }

  lemma NoProjectPruned(ps: map<string, Project>, es: map<string, string>, keep: set<string>, policy: OrphanPolicy, now: Time)
    requires ps.Keys <= keep
    ensures ProjectsPruned(ps, es, keep, policy, now, ps, es, [])
  {
    assert ProjectsToPrune(ps, keep, policy) == {};
  }

  lemma NoTeamPruned(ts: map<string, Team>, keep: set<string>, policy: OrphanPolicy, now: Time)
    requires ts.Keys <= keep
    ensures TeamsPruned(ts, keep, policy, now, ts, [])
  {
    assert TeamsToPrune(ts, keep, policy) == {};
  }

  lemma ProjectStillThere(ps: map<string, Project>, es: map<string, string>, keep: set<string>, slug: string,
                          policy: OrphanPolicy, now: Time, projects: map<string, Project>, events: map<string, string>,
                          log: seq<Action>)
    requires ProjectsPruned(ps, es, keep, policy, now, projects, events, log) && slug in ps && slug in keep
    ensures slug in projects && projects[slug] == ps[slug]
  {
  }

  lemma TeamStillThere(ts: map<string, Team>, keep: set<string>, name: string, policy: OrphanPolicy, now: Time,
                       teams: map<string, Team>, log: seq<Action>)
    requires TeamsPruned(ts, keep, policy, now, teams, log) && name in ts && name in keep
    ensures name in teams && teams[name] == ts[name]
  {
  }

  lemma ProjectsPrunedStep(ps: map<string, Project>, es: map<string, string>, keep: set<string>, slug: string,
                           policy: OrphanPolicy, now: Time, projects: map<string, Project>, events: map<string, string>,
                           projects': map<string, Project>, events': map<string, string>, log: seq<Action>)
    requires ProjectsPruned(ps, es, keep, policy, now, projects, events, log) && slug in ps && slug in keep
    requires slug in projects && ProjectStep(slug, policy, now, projects, events, projects', events')
    ensures projects[slug] == ps[slug]
    ensures ProjectsPruned(ps, es, keep - {slug}, policy, now, projects', events', log + ProjectLog(ps[slug], slug, policy))
  {
    PruneNextProject(ps, keep, slug, policy, now);
    if policy.Delete? {
      PruneNextEvents(es, ps, keep, slug);
    }
    if ProjectLog(ps[slug], slug, policy) == [] {
      assert log + [] == log;
    } else {
      LogAppend(log, ProjectEntity, PruneKind(policy), ProjectsToPrune(ps, keep, policy), slug);
    }
  }

  lemma TeamsPrunedStep(ts: map<string, Team>, keep: set<string>, name: string, policy: OrphanPolicy, now: Time,
                        teams: map<string, Team>, teams': map<string, Team>, log: seq<Action>)
    requires TeamsPruned(ts, keep, policy, now, teams, log) && name in ts && name in keep
    requires name in teams && TeamStep(name, policy, now, teams, teams')
    ensures teams[name] == ts[name]
    ensures TeamsPruned(ts, keep - {name}, policy, now, teams', log + TeamLog(ts[name], name, policy))
  {
    PruneNextTeam(ts, keep, name, policy, now);
    if TeamLog(ts[name], name, policy) == [] {
      assert log + [] == log;
    } else {
      LogAppend(log, TeamEntity, PruneKind(policy), TeamsToPrune(ts, keep, policy), name);
    }
  }

  lemma SameUsersSameTeam(row: Option<Team>, t: TeamConfig, s: State, s': State, d: Draw)
    requires s.users == s'.users && s.groupsOf == s'.groupsOf
    ensures TeamAfter(row, t, s, d) == TeamAfter(row, t, s', d)
  {
    var granted := TeamRow(row, t, d).(emails := EmailMap(Listed(t.members)), groups := GroupMap(Listed(t.ssoGroups)));
    SameUsersSameMembers(granted, s, s', d.now);
  }

  lemma UpsertNext<R, C>(rows: map<string, R>, cs: seq<C>, key: C -> string, after: (Option<R>, C) -> R, i: nat)
    requires i < |cs|
    ensures var m := Upsert(rows, cs[..i], key, after);
            Upsert(rows, cs[..i + 1], key, after) == m[key(cs[i]) := after(Row(m, key(cs[i])), cs[i])]
  {
    assert cs[..i + 1][..i] == cs[..i];
  }

  lemma NotesNext<R, C, N>(rows: map<string, R>, cs: seq<C>, key: C -> string, after: (Option<R>, C) -> R,
                           note: (Option<R>, C) -> N, i: nat)
    requires i < |cs|
    ensures Notes(rows, cs[..i + 1], key, after, note)
            == Notes(rows, cs[..i], key, after, note)
               + [note(Row(Upsert(rows, cs[..i], key, after), key(cs[i])), cs[i])]
  {
    assert cs[..i + 1][..i] == cs[..i];
  }

  datatype SyncError =
    | PlanRejected(errors: set<PlanError>)
    | ProjectFailed(slug: string)   // unknown team, or an interval out of range
    | KeyTaken(slug: string)        // a unique index refuses a drawn identifier
    | TeamStillOwns
    | DbBusy

  /** The prunable projects of one application, once its declared projects are in place. */
  function StaleProjects(s: State, f: ConfigFile, set_: Settings, d: Draw): set<string> {
    if f.projects.None? then {} else ProjectsToPrune(ProjectsSynced(s, f, set_, d), Slugs(f.projects.value), set_.projectPolicy)
  }

  function StaleTeams(s: State, f: ConfigFile, set_: Settings, d: Draw): set<string> {
    if f.teams.None? then {} else TeamsToPrune(TeamsSynced(s, f, set_, d), TeamNames(f.teams.value), set_.teamPolicy)
  }

  /** The report of a committed application: the declared entities in order, then each pruned row once. */
  ghost predicate Reported(actions: seq<Action>, s: State, f: ConfigFile, set_: Settings, d: Draw,
                           plog: seq<Action>, tlog: seq<Action>)
  {
    && actions == DeclaredActions(s, f, set_, d) + plog + tlog
    && LogOf(plog, ProjectEntity, PruneKind(set_.projectPolicy), StaleProjects(s, f, set_, d))
    && LogOf(tlog, TeamEntity, PruneKind(set_.teamPolicy), StaleTeams(s, f, set_, d))
  }

  /** A second application of the same file reports every declared entity once, unchanged, and nothing else. */
  lemma SecondReport(s: State, f: ConfigFile, set_: Settings, d: Draw, d': Draw, actions: seq<Action>,
                     plog: seq<Action>, tlog: seq<Action>)
    requires Parsed(f, set_) && d.retention == d'.retention
    requires Reported(actions, Applied(s, f, set_, d), f, set_, d', plog, tlog)
    ensures actions == AllUnchanged(f)
  {
    var r := Applied(s, f, set_, d);
    Idempotent(s, f, set_, d, d');
    TeamsUnchanged(s, f, set_, d, d');
    ProjectsUnchanged(s, f, set_, d, d');
    assert StaleProjects(r, f, set_, d') == {};
    assert StaleTeams(r, f, set_, d') == {};
  }

  lemma KeepNext(declared: set<string>, todo: set<string>, k: string)
    requires k in todo && todo !! declared
    ensures declared + todo - {k} == declared + (todo - {k})
  {
  }

  lemma AppendLog(a: seq<Action>, b: seq<Action>, c: seq<Action>)
    ensures (a + b) + c == a + (b + c)
  {
  }

  class Database {
    var teams: map<string, Team>
    var projects: map<string, Project>
    var users: map<string, string>
    var groupsOf: map<string, set<string>>
    var events: map<string, string>

    ghost function Db(): State
      reads this
    {
      State(teams, projects, users, groupsOf, events)
    }

    constructor (s: State)
      ensures Db() == s
    {
      teams, projects, users, groupsOf, events := s.teams, s.projects, s.users, s.groupsOf, s.events;
    }

    /** The matching grant rows, in whatever order the database returns them. */
    method SelectRoles(t: Team, email: string, seen: set<string>) returns (roles: seq<Role>)
      ensures (set r | r in roles) == Matching(t.emails, t.groups, email, seen)
    {
      roles := if Lower(email) in t.emails then [t.emails[Lower(email)]] else [];
      var todo := seen;
      while todo != {}
        invariant todo <= seen
        invariant (set r | r in roles) == Matching(t.emails, t.groups, email, seen - todo)
        decreases todo
      {
        var g :| g in todo;
        ghost var before := Matching(t.emails, t.groups, email, seen - todo);
        todo := todo - {g};
        assert seen - todo == (seen - (todo + {g})) + {g};
        if g in t.groups {
          assert Matching(t.emails, t.groups, email, seen - todo) == before + {t.groups[g]};
          assert (set r | r in roles + [t.groups[g]]) == (set r | r in roles) + {t.groups[g]};
          roles := roles + [t.groups[g]];
        } else {
          assert Matching(t.emails, t.groups, email, seen - todo) == before;
        }
      }
      assert seen - {} == seen;
    }

    /** Upsert or delete one membership row. */
    method Reconcile(name: string, user: string, email: string, now: Time) returns (granted: bool)
      requires name in teams
      modifies this`teams
      ensures var seen := SeenGroups(groupsOf, user);
              && teams == old(teams)[name := ReconcileMember(old(teams)[name], user, email, seen, now)]
              && granted == RoleFor(old(teams)[name], email, seen).Some?
    {
      var seen := if user in groupsOf then groupsOf[user] else {};
      var t := teams[name];
      var roles := SelectRoles(t, email, seen);
      var role := ReconcileMemberships(roles);
      if role.Some? {
        var at := if user in t.members then t.members[user].createdAt else now;
        t := t.(members := t.members[user := Member(role.value, at)]);
      } else {
        t := t.(members := t.members - {user});
      }
      teams := teams[name := t];
      granted := role.Some?;
    }

    method GrantsChanged(row: Team, t: TeamConfig) returns (changed: bool)
      requires GrantsOk(t)
      ensures changed == GrantsDiffer(row, t)
    {
      var emails, groups := Lowered(Listed(t.members)), Listed(t.ssoGroups);
      PairsDecide(row.emails, emails);
      PairsDecide(row.groups, groups);
      changed := RowPairs(row.emails) != GrantPairs(emails) || RowPairs(row.groups) != GrantPairs(groups);
    }

    method PlanTeam(row: Option<Team>, t: TeamConfig) returns (kind: ActionKind)
      requires GrantsOk(t)
      ensures kind == TeamKind(row, t)
    {
      if row.None? {
        return Create;
      }
      var changed := GrantsChanged(row.value, t);
      if row.value.orphanedAt.Some? {
        return Restore;
      }
      return if changed then Update else Unchanged;
    }

    /** Find or create the team row and record what was done. */
    method UpsertTeam(t: TeamConfig, d: Draw, report: SyncReport)
      requires GrantsOk(t) && report.Valid()
      modifies this`teams, report
      ensures report.Valid()
      ensures teams == old(teams)[t.name := TeamRow(Row(old(teams), t.name), t, d)]
      ensures report.actions == old(report.actions) + [Action(TeamEntity, t.name, TeamKind(Row(old(teams), t.name), t))]
    {
      var found := Row(teams, t.name);
      var kind := PlanTeam(found, t);
      report.Record(TeamEntity, t.name, kind);
      var row := if found.None? then NewTeam(t.name, d) else found.value;
      if found.Some? && kind != Unchanged {
        row := row.(orphanedAt := None, updatedAt := d.now);
      }
      teams := teams[t.name := row];
    }

    method WriteGrants(t: TeamConfig)
      requires t.name in teams
      modifies this`teams
      ensures teams == old(teams)[t.name := old(teams)[t.name].(emails := EmailMap(Listed(t.members)),
                                                               groups := GroupMap(Listed(t.ssoGroups)))]
    {
      var row := teams[t.name].(emails := map[], groups := map[]);
      var members, groups := Listed(t.members), Listed(t.ssoGroups);
      for i := 0 to |members|
        invariant row == old(teams)[t.name].(emails := EmailMap(members[..i]), groups := map[])
      {
        assert Lowered(members[..i + 1])[..i] == Lowered(members[..i]);
        row := row.(emails := row.emails[Lower(members[i].to) := members[i].role]);
      }
      assert members[..|members|] == members;
      for i := 0 to |groups|
        invariant row == old(teams)[t.name].(emails := EmailMap(members), groups := GroupMap(groups[..i]))
      {
        assert groups[..i + 1][..i] == groups[..i];
        row := row.(groups := row.groups[groups[i].to := groups[i].role]);
      }
      assert groups[..|groups|] == groups;
      teams := teams[t.name := row];
    }

    /** Recompute the membership of one team, user by user. */
    method ReconcileTeam(name: string, now: Time)
      requires name in teams
      modifies this`teams
      ensures teams == old(teams)[name := old(teams)[name].(members := ReconciledMembers(old(teams)[name], old(Db()), now))]
    {
      ghost var t, s, base := teams[name], Db(), teams;
      var todo := users.Keys;
      ghost var done: set<string> := {};
      AllMembers(t, s, now);
      ghost var row := t;
      while todo != {}
        invariant done <= s.users.Keys && todo == s.users.Keys - done
        invariant row == t.(members := MembersSoFar(t, s, done, now))
        invariant teams == base[name := row]
        decreases todo
      {
        var u :| u in todo;
        NextTeam(t, s, done, u, now);
        var granted := Reconcile(name, u, users[u], now);
        Overwrite(base, name, row, ReconcileMember(row, u, s.users[u], GroupsOf(s, u), now));
        row := ReconcileMember(row, u, s.users[u], GroupsOf(s, u), now);
        todo := todo - {u};
        done := done + {u};
      }
      assert done == s.users.Keys;
    }

    method SyncTeam(t: TeamConfig, d: Draw, report: SyncReport)
      requires GrantsOk(t) && report.Valid()
      modifies this`teams, report
      ensures report.Valid()
      ensures teams == old(teams)[t.name := TeamAfter(Row(old(teams), t.name), t, old(Db()), d)]
      ensures report.actions == old(report.actions) + [Action(TeamEntity, t.name, TeamKind(Row(old(teams), t.name), t))]
    {
      UpsertTeam(t, d, report);
      WriteGrants(t);
      ghost var granted := teams[t.name];
      SameUsersSameMembers(granted, old(Db()), Db(), d.now);
      ReconcileTeam(t.name, d.now);
    }

    /** Fails, before touching anything, on an unknown team, an interval out of range, or a taken key. */
    method SyncProject(p: ProjectConfig, d: Draw, report: SyncReport) returns (failure: Option<SyncError>)
      requires report.Valid()
      modifies this`projects, report
      ensures report.Valid()
      ensures failure == if p.team !in teams || !InRange(DeclaredFields(p, d.retention).interval) then Some(ProjectFailed(p.slug))
                         else if p.slug !in old(projects) && Taken(old(projects), DrawnKeys(d, p.slug)) then Some(KeyTaken(p.slug))
                         else None
      ensures failure.Some? ==> projects == old(projects) && report.actions == old(report.actions)
      ensures failure.None? ==>
                projects == old(projects)[p.slug := ProjectAfter(Row(old(projects), p.slug), p, d)]
                && report.actions == old(report.actions) + [Action(ProjectEntity, p.slug, ProjectKind(Row(old(projects), p.slug), p, d.retention))]
    {
      if p.team !in teams {
        return Some(ProjectFailed(p.slug));
      }
      var fields := DeclaredFields(p, d.retention);
      if !InRange(fields.interval) {
        return Some(ProjectFailed(p.slug));
      }
      if p.slug in projects {
        var row := projects[p.slug];
        var changed := row.team != p.team || row.fields != fields;
        var kind := PlanPresent(true, row.orphanedAt.Some?, changed);
        if kind != Unchanged {
          projects := projects[p.slug := row.(team := p.team, fields := fields, orphanedAt := None, updatedAt := d.now)];
        }
        report.Record(ProjectEntity, p.slug, kind);
      } else {
        if Taken(projects, DrawnKeys(d, p.slug)) {
          return Some(KeyTaken(p.slug));
        }
        projects := projects[p.slug := Project(DrawnKeys(d, p.slug), p.team, fields, d.now, d.now, None)];
        report.Record(ProjectEntity, p.slug, Create);
      }
      failure := None;
    }

    /** One statement: delete at most `batch` of the project's events. */
    method DeleteBatch(id: string, batch: nat) returns (n: nat)
      modifies this`events
      ensures events.Keys <= old(events).Keys && (forall e :: e in events ==> events[e] == old(events)[e])
      ensures forall e :: e in old(events) && old(events)[e] != id ==> e in events
      ensures n == |old(events)| - |events| <= batch
      ensures batch >= 1 && n == 0 ==> forall e :: e in events ==> events[e] != id
    {
      n := 0;
      var todo := set e | e in events && events[e] == id;
      while todo != {} && n < batch
        invariant todo <= events.Keys && n <= batch
        invariant todo == set e | e in events && events[e] == id
        invariant events.Keys <= old(events).Keys && (forall e :: e in events ==> events[e] == old(events)[e])
        invariant forall e :: e in old(events) && old(events)[e] != id ==> e in events
        invariant n == |old(events)| - |events|
        decreases todo
      {
        var e :| e in todo;
        OneLess(events, e);
        events := events - {e};
        todo := todo - {e};
        n := n + 1;
      }
      assert batch >= 1 && n == 0 ==> todo == {};
      assert forall e :: e in events && events[e] == id ==> e in todo;
    }

    /** Batches until one deletes nothing; ends because every other batch deletes something. */
    method DeleteProjectEvents(id: string, batch: nat)
      requires batch >= 1
      modifies this`events
      ensures events == map e | e in old(events) && old(events)[e] != id :: old(events)[e]
    {
      var n := DeleteBatch(id, batch);
      while n != 0
        invariant events.Keys <= old(events).Keys && (forall e :: e in events ==> events[e] == old(events)[e])
        invariant forall e :: e in old(events) && old(events)[e] != id ==> e in events
        invariant n == 0 ==> forall e :: e in events ==> events[e] != id
        decreases |events| + n
      {
        n := DeleteBatch(id, batch);
      }
    }

    /** Mark or delete one undeclared project. */
    method PruneProject(slug: string, policy: OrphanPolicy, now: Time, batch: nat, report: SyncReport)
      requires slug in projects && batch >= 1 && report.Valid()
      modifies this`projects, this`events, report
      ensures report.Valid()
      ensures ProjectStep(slug, policy, now, old(projects), old(events), projects, events)
      ensures report.actions == old(report.actions) + ProjectLog(old(projects)[slug], slug, policy)
    {
      match policy {
        case Readonly =>
          if projects[slug].orphanedAt.Some? {
            return;
          }
          projects := projects[slug := projects[slug].(orphanedAt := Some(now))];
          report.Record(ProjectEntity, slug, Orphan);
        case Delete =>
          DeleteProjectEvents(projects[slug].keys.id, batch);
          projects := projects - {slug};
          report.Record(ProjectEntity, slug, Remove);
      }
    }

    method PruneUndeclaredProjects(declared: set<string>, policy: OrphanPolicy, now: Time, batch: nat, report: SyncReport)
      returns (ghost log: seq<Action>)
      requires batch >= 1 && report.Valid()
      modifies this`projects, this`events, report
      ensures report.Valid() && report.actions == old(report.actions) + log
      ensures ProjectsPruned(old(projects), old(events), declared, policy, now, projects, events, log)
    {
      log := [];
      ghost var ps, es := projects, events;
      var todo := projects.Keys - declared;
      ghost var keep := declared + todo;
      NoProjectPruned(ps, es, keep, policy, now);
      while todo != {}
        invariant todo <= ps.Keys && keep == declared + todo && todo !! declared
        invariant report.Valid() && report.actions == old(report.actions) + log
        invariant ProjectsPruned(ps, es, keep, policy, now, projects, events, log)
        decreases todo
      {
        var slug :| slug in todo;
        ProjectStillThere(ps, es, keep, slug, policy, now, projects, events, log);
        ghost var ps0, es0 := projects, events;
        PruneProject(slug, policy, now, batch, report);
        ProjectsPrunedStep(ps, es, keep, slug, policy, now, ps0, es0, projects, events, log);
        AppendLog(old(report.actions), log, ProjectLog(ps[slug], slug, policy));
        KeepNext(declared, todo, slug);
        log := log + ProjectLog(ps[slug], slug, policy);
        todo := todo - {slug};
        keep := declared + todo;
      }
      assert keep == declared;
    }

    /** Mark or delete one undeclared team; a team that still owns projects cannot be deleted. */
    method PruneTeam(name: string, policy: OrphanPolicy, now: Time, report: SyncReport) returns (ok: bool)
      requires name in teams && report.Valid()
      modifies this`teams, report
      ensures report.Valid()
      ensures !ok <==> policy.Delete? && exists slug :: slug in projects && projects[slug].team == name
      ensures ok ==> TeamStep(name, policy, now, old(teams), teams)
      ensures ok ==> report.actions == old(report.actions) + TeamLog(old(teams)[name], name, policy)
    {
      match policy {
        case Readonly =>
          if teams[name].orphanedAt.None? {
            teams := teams[name := teams[name].(orphanedAt := Some(now))];
            report.Record(TeamEntity, name, Orphan);
          }
          return true;
        case Delete =>
          var slugs := set slug | slug in projects && projects[slug].team == name;
          assert forall slug :: slug in projects && projects[slug].team == name <==> slug in slugs;
          if slugs != {} {
            ghost var slug :| slug in slugs;
            return false;
          }
          teams := teams - {name};
          report.Record(TeamEntity, name, Remove);
          return true;
      }
    }

    method PruneUndeclaredTeams(declared: set<string>, policy: OrphanPolicy, now: Time, report: SyncReport)
      returns (ok: bool, ghost log: seq<Action>)
      requires report.Valid()
      modifies this`teams, report
      ensures report.Valid()
      ensures !ok ==> policy.Delete? && exists slug :: slug in projects && projects[slug].team in old(teams) && projects[slug].team !in declared
      ensures ok ==> report.actions == old(report.actions) + log && TeamsPruned(old(teams), declared, policy, now, teams, log)
    {
      log := [];
      ghost var ts := teams;
      var todo := teams.Keys - declared;
      ghost var keep := declared + todo;
      NoTeamPruned(ts, keep, policy, now);
      while todo != {}
        invariant todo <= ts.Keys && keep == declared + todo && todo !! declared
        invariant report.Valid() && report.actions == old(report.actions) + log
        invariant TeamsPruned(ts, keep, policy, now, teams, log)
        decreases todo
      {
        var name :| name in todo;
        TeamStillThere(ts, keep, name, policy, now, teams, log);
        ghost var ts0 := teams;
        ok := PruneTeam(name, policy, now, report);
        if !ok {
          return;
        }
        TeamsPrunedStep(ts, keep, name, policy, now, ts0, teams, log);
        AppendLog(old(report.actions), log, TeamLog(ts[name], name, policy));
        KeepNext(declared, todo, name);
        log := log + TeamLog(ts[name], name, policy);
        todo := todo - {name};
        keep := declared + todo;
      }
      assert keep == declared;
      ok := true;
    }

    method SyncTeams(ts: seq<TeamConfig>, d: Draw, report: SyncReport)
      requires report.Valid() && forall t :: t in ts ==> GrantsOk(t)
      modifies this`teams, report
      ensures report.Valid()
      ensures teams == Upsert(old(teams), ts, TEAM_KEY, TeamRule(old(Db()), d))
      ensures report.actions == old(report.actions) + Notes(old(teams), ts, TEAM_KEY, TeamRule(old(Db()), d), TeamNote())
    {
      ghost var rows, s, acts := teams, Db(), report.actions;
      ghost var rule := TeamRule(s, d);
      ghost var notes := [];
      for i := 0 to |ts|
        invariant report.Valid()
        invariant teams == Upsert(rows, ts[..i], TEAM_KEY, rule)
        invariant notes == Notes(rows, ts[..i], TEAM_KEY, rule, TeamNote()) && report.actions == acts + notes
      {
        UpsertNext(rows, ts, TEAM_KEY, rule, i);
        NotesNext(rows, ts, TEAM_KEY, rule, TeamNote(), i);
        SameUsersSameTeam(Row(teams, ts[i].name), ts[i], s, Db(), d);
        ghost var note := TeamNote()(Row(teams, ts[i].name), ts[i]);
        AppendLog(acts, notes, [note]);
        SyncTeam(ts[i], d, report);
        notes := notes + [note];
      }
      assert ts[..|ts|] == ts;
    }

    method SyncProjects(ps: seq<ProjectConfig>, d: Draw, report: SyncReport) returns (failure: Option<SyncError>)
      requires report.Valid() && Distinct(ps, PROJECT_KEY)
      modifies this`projects, report
      ensures report.Valid()
      ensures failure.Some? ==> ProjectError(failure.value, ps, teams.Keys, old(projects), d)
      ensures failure.None? ==> FreshKeys(old(projects), ps, d)
      ensures failure.None? ==> projects == Upsert(old(projects), ps, PROJECT_KEY, ProjectRule(d))
      ensures failure.None? ==>
                report.actions == old(report.actions) + Notes(old(projects), ps, PROJECT_KEY, ProjectRule(d), ProjectNote(d))
    {
      ghost var rows, acts, rule := projects, report.actions, ProjectRule(d);
      ghost var notes := [];
      for i := 0 to |ps|
        invariant report.Valid()
        invariant FreshUpTo(rows, ps, d, i)
        invariant projects == Upsert(rows, ps[..i], PROJECT_KEY, rule)
        invariant notes == Notes(rows, ps[..i], PROJECT_KEY, rule, ProjectNote(d)) && report.actions == acts + notes
      {
        UpsertNext(rows, ps, PROJECT_KEY, rule, i);
        NotesNext(rows, ps, PROJECT_KEY, rule, ProjectNote(d), i);
        Turn(rows, ps, d, i, teams.Keys, projects);
        ghost var note := ProjectNote(d)(Row(projects, ps[i].slug), ps[i]);
        AppendLog(acts, notes, [note]);
        failure := SyncProject(ps[i], d, report);
        if failure.Some? {
          return;
        }
        notes := notes + [note];
      }
      assert ps[..|ps|] == ps;
      failure := None;
    }

    /** Management by the UI lifts the orphan marks; then the declared teams are synchronized. */
    method TeamPhase(f: ConfigFile, set_: Settings, d: Draw, report: SyncReport)
      requires Parsed(f, set_) && report.Valid() && report.actions == []
      modifies this`teams, report
      ensures report.Valid()
      ensures teams == TeamsSynced(old(Db()), f, set_, d)
      ensures report.actions == Notes(TeamsAtStart(old(Db()), set_), TeamsOf(f), TEAM_KEY, TeamRule(old(Db()), d), TeamNote())
    {
      ghost var s := Db();
      if set_.teamSource.Ui? {
        teams := map n | n in teams :: teams[n].(orphanedAt := None);
      }
      ghost var before := Db();
      SyncTeams(TeamsOf(f), d, report);
      UpsertSameRule(s, before, TeamsAtStart(s, set_), TeamsOf(f), d);
    }

    method ProjectPhase(f: ConfigFile, set_: Settings, d: Draw, report: SyncReport) returns (failure: Option<SyncError>)
      requires Parsed(f, set_) && report.Valid()
      modifies this`projects, report
      ensures report.Valid()
      ensures failure.Some? ==> ProjectError(failure.value, ProjectsOf(f), teams.Keys, old(projects), d)
      ensures failure.None? ==> FreshDraw(old(Db()), f, d) && projects == ProjectsSynced(old(Db()), f, set_, d)
      ensures failure.None? ==>
                report.actions == old(report.actions)
                  + Notes(ProjectsAtStart(old(Db()), set_), ProjectsOf(f), PROJECT_KEY, ProjectRule(d), ProjectNote(d))
    {
      if set_.projectSource.Ui? {
        projects := map n | n in projects :: projects[n].(orphanedAt := None);
      }
      SameKeysSameFresh(old(projects), projects, ProjectsOf(f), d);
      failure := SyncProjects(ProjectsOf(f), d, report);
    }

    /** Prune what the file does not declare, projects before teams. */
    method PrunePhase(f: ConfigFile, set_: Settings, now: Time, batch: nat, report: SyncReport)
      returns (ok: bool, ghost plog: seq<Action>, ghost tlog: seq<Action>)
      requires batch >= 1 && report.Valid()
      modifies this`teams, this`projects, this`events, report
      ensures report.Valid()
      ensures if f.projects.None? then projects == old(projects) && events == old(events) && plog == []
              else ProjectsPruned(old(projects), old(events), Slugs(f.projects.value), set_.projectPolicy, now, projects, events, plog)
      ensures ok ==> if f.teams.None? then teams == old(teams) && tlog == []
                     else TeamsPruned(old(teams), TeamNames(f.teams.value), set_.teamPolicy, now, teams, tlog)
      ensures ok ==> report.actions == old(report.actions) + plog + tlog
      ensures !ok ==> f.teams.Some? && set_.teamPolicy.Delete?
      ensures !ok ==> exists slug :: slug in projects && projects[slug].team in old(teams) && projects[slug].team !in TeamNames(f.teams.value)
    {
      plog, tlog := [], [];
      if f.projects.Some? {
        plog := PruneUndeclaredProjects(Slugs(f.projects.value), set_.projectPolicy, now, batch, report);
      }
      if f.teams.Some? {
        ok, tlog := PruneUndeclaredTeams(TeamNames(f.teams.value), set_.teamPolicy, now, report);
        return;
      }
      ok := true;
    }

    /** Teams first, so that projects find theirs. */
    method SyncPhase(f: ConfigFile, set_: Settings, d: Draw, report: SyncReport) returns (failure: Option<SyncError>)
      requires Parsed(f, set_) && report.Valid() && report.actions == []
      modifies this`teams, this`projects, report
      ensures report.Valid() && teams == TeamsSynced(old(Db()), f, set_, d)
      ensures failure.Some? ==> ProjectError(failure.value, ProjectsOf(f), teams.Keys, old(projects), d)
      ensures failure.None? ==> FreshDraw(old(Db()), f, d) && projects == ProjectsSynced(old(Db()), f, set_, d)
      ensures failure.None? ==> report.actions == DeclaredActions(old(Db()), f, set_, d)
    {
      ghost var s := Db();
      TeamPhase(f, set_, d, report);
      SameProjects(s, Db(), f, set_, d);
      failure := ProjectPhase(f, set_, d, report);
    }

    /** The statements of the transaction, up to the first that fails. */
    method Execute(f: ConfigFile, set_: Settings, d: Draw, batch: nat, report: SyncReport)
      returns (failure: Option<SyncError>, ghost plog: seq<Action>, ghost tlog: seq<Action>)
      requires Parsed(f, set_) && batch >= 1 && report.Valid() && report.actions == []
      modifies this`teams, this`projects, this`events, report
      ensures report.Valid() && (failure.Some? ==> StatementFails(failure.value, old(Db()), f, set_, d))
      ensures failure.None? ==> FreshDraw(old(Db()), f, d) && Db() == Applied(old(Db()), f, set_, d)
      ensures failure.None? ==> Reported(report.actions, old(Db()), f, set_, d, plog, tlog)
    {
      plog, tlog := [], [];
      ghost var s := Db();
      failure := SyncPhase(f, set_, d, report);
      if failure.Some? {
        return;
      }
      ghost var declared := report.actions;
      var ok;
      ok, plog, tlog := PrunePhase(f, set_, d.now, batch, report);
      if !ok {
        StrandedNow(s, f, set_, d, projects);
        return Some(TeamStillOwns), plog, tlog;
      }
      Assemble(s, f, set_, d, Db(), declared, plog, tlog);
    }

    /** One transaction: committed as a whole or rolled back as a whole. */
    method ApplyOnce(f: ConfigFile, set_: Settings, d: Draw, batch: nat)
      returns (r: Result<SyncReport, SyncError>, ghost plog: seq<Action>, ghost tlog: seq<Action>)
      requires Parsed(f, set_) && batch >= 1
      modifies this
      ensures r.Err? ==> Db() == old(Db())
      ensures r.Err? && r.error.PlanRejected? <==> !PlanAccepted(f, set_, SnapshotOf(old(Db())))
      ensures r.Err? && !r.error.PlanRejected? ==> StatementFails(r.error, old(Db()), f, set_, d)
      ensures r.Ok? ==> fresh(r.value) && r.value.Valid() && FreshDraw(old(Db()), f, d)
      ensures r.Ok? ==> Db() == Applied(old(Db()), f, set_, d) && Reported(r.value.actions, old(Db()), f, set_, d, plog, tlog)
    {
      plog, tlog := [], [];
      var teams0, projects0, events0 := teams, projects, events;
      var snap := Snapshot(teams.Keys, map slug | slug in projects :: projects[slug].team);
      var errors := ValidatePlan(f, set_, snap);
      if errors != {} {
        return Err(PlanRejected(errors)), plog, tlog;
      }
      var report := new SyncReport();
      var failure;
      failure, plog, tlog := Execute(f, set_, d, batch, report);
      if failure.Some? {
        teams, projects, events := teams0, projects0, events0;
        return Err(failure.value), plog, tlog;
      }
      r := Ok(report);
    }

    /** An attempt that the database turns away as busy, at any statement or at the commit, has no effect. */
    method Attempt(f: ConfigFile, set_: Settings, d: Draw, batch: nat)
      returns (r: Result<SyncReport, SyncError>, ghost plog: seq<Action>, ghost tlog: seq<Action>)
      requires Parsed(f, set_) && batch >= 1
      modifies this
      ensures Db() == if r.Err? then old(Db()) else Commit(old(Db()), Application(f, set_, d))
      ensures r.Ok? || r.error != DbBusy ==> (r.Ok? <==> Commits(old(Db()), Application(f, set_, d)))
      ensures r.Err? && r.error != DbBusy ==>
                (r.error.PlanRejected? <==> !PlanAccepted(f, set_, SnapshotOf(old(Db())))) && !r.error.TeamStillOwns?
                && !r.error.ProjectFailed?
      ensures r.Ok? ==> r.value.Valid() && Reported(r.value.actions, old(Db()), f, set_, d, plog, tlog)
    {
      var busy: bool := *;
      if busy {
        return Err(DbBusy), [], [];
      }
      ghost var s := Db();
      r, plog, tlog := ApplyOnce(f, set_, d, batch);
      if PlanAccepted(f, set_, SnapshotOf(s)) {
        PlanSound(s, f, set_, d);
      }
    }

    /** Applying a file: attempts, each with its own time and identifiers, until one is not turned away as busy
        or the budget is spent. Then it succeeds exactly when the plan is accepted and the identifiers drawn
        are free; no statement after an accepted plan can fail for another reason. */
    method Apply(f: ConfigFile, set_: Settings, draws: seq<Draw>, policy: Retry.WritePolicy)
      returns (r: Result<SyncReport, SyncError>, used: nat, ghost plog: seq<Action>, ghost tlog: seq<Action>)
      requires Parsed(f, set_) && policy.Valid() && |draws| == policy.maxRetries + 1
      modifies this
      ensures used < |draws|
      ensures r == Err(DbBusy) ==> used == policy.maxRetries && Db() == old(Db())
      ensures r != Err(DbBusy) ==>
                && (r.Ok? <==> Commits(old(Db()), Application(f, set_, draws[used])))
                && Db() == Commit(old(Db()), Application(f, set_, draws[used]))
      ensures r.Err? && r.error != DbBusy ==>
                if r.error.PlanRejected? then !PlanAccepted(f, set_, SnapshotOf(old(Db())))
                else r.error.KeyTaken? && PlanAccepted(f, set_, SnapshotOf(old(Db()))) && !FreshDraw(old(Db()), f, draws[used])
      ensures r.Ok? ==> r.value.Valid() && Reported(r.value.actions, old(Db()), f, set_, draws[used], plog, tlog)
    {
      used := 0;
      while true
        invariant used <= policy.maxRetries && Db() == old(Db())
        decreases policy.maxRetries - used
      {
        r, plog, tlog := Attempt(f, set_, draws[used], policy.deleteBatch);
        if r.Ok? || !r.error.DbBusy? || used >= policy.maxRetries {
          return;
        }
        used := used + 1;
      }
    }

    /** A sign-in: store the groups the provider reported, then reconcile the user in every live team. */
    method ReconcileUserGrants(user: string, groups: seq<string>, now: Time) returns (r: Option<bool>)
      modifies this`teams, this`groupsOf
      ensures r.None? <==> user !in users
      ensures r.None? ==> Db() == old(Db())
      ensures r.Some? ==> Db() == ReconcileUser(old(Db()), user, (set g | g in groups), now)
      ensures r.Some? ==>
                (r.value <==> exists n :: n in teams && teams[n].orphanedAt.None? && user in teams[n].members)
    {
      if user !in users {
        return None;
      }
      var seen := set g | g in groups;
      ghost var s := Db();
      groupsOf := groupsOf[user := seen];
      var email := users[user];
      var live := set n | n in teams && teams[n].orphanedAt.None?;
      var todo, granted := live, false;
      ghost var done: set<string> := {};
      while todo != {}
        invariant todo <= live && done == live - todo && groupsOf == s.groupsOf[user := seen]
        invariant teams == TeamsReconciled(s.teams, done, user, email, seen, now)
        invariant granted == GrantedIn(s.teams, done, email, seen)
        decreases todo
      {
        var n :| n in todo;
        TeamsReconciledNext(s.teams, done, n, user, email, seen, now);
        var one := Reconcile(n, user, email, now);
        granted := granted || one;
        todo := todo - {n};
        done := done + {n};
      }
      assert done == live;
      SignInResult(s, user, seen, now);
      r := Some(granted);
    }
  }

  function TeamsReconciled(teams: map<string, Team>, done: set<string>, user: string, email: string, seen: set<string>,
                           now: Time): map<string, Team>
  {
    map n | n in teams :: if n in done then ReconcileMember(teams[n], user, email, seen, now) else teams[n]
  }

  predicate GrantedIn(teams: map<string, Team>, done: set<string>, email: string, seen: set<string>) {
    exists n :: n in done && n in teams && RoleFor(teams[n], email, seen).Some?
  }

  lemma TeamsReconciledNext(teams: map<string, Team>, done: set<string>, n: string, user: string, email: string,
                            seen: set<string>, now: Time)
    requires n in teams && n !in done
    ensures var was := TeamsReconciled(teams, done, user, email, seen, now);
            && was[n] == teams[n]
            && TeamsReconciled(teams, done + {n}, user, email, seen, now)
               == was[n := ReconcileMember(teams[n], user, email, seen, now)]
    ensures GrantedIn(teams, done + {n}, email, seen)
            <==> GrantedIn(teams, done, email, seen) || RoleFor(teams[n], email, seen).Some?
  {
  }

  /** Being granted something means being a member of a live team afterwards. */
  lemma SignInResult(s: State, user: string, seen: set<string>, now: Time)
    requires user in s.users
    ensures var live := set n | n in s.teams && s.teams[n].orphanedAt.None?;
            var r := ReconcileUser(s, user, seen, now);
            && TeamsReconciled(s.teams, live, user, s.users[user], seen, now) == r.teams
            && (GrantedIn(s.teams, live, s.users[user], seen)
                <==> exists n :: n in r.teams && r.teams[n].orphanedAt.None? && user in r.teams[n].members)
  {
    var live := set n | n in s.teams && s.teams[n].orphanedAt.None?;
    var r := ReconcileUser(s, user, seen, now);
    assert forall n :: n in live ==>
             (user in r.teams[n].members <==> RoleFor(s.teams[n], s.users[user], seen).Some?);
    assert forall n :: n in r.teams && r.teams[n].orphanedAt.None? <==> n in live;
  }

  /** Synchronizing teams does not disturb what projects will be synchronized from. */
  lemma OneLess(m: map<string, string>, k: string)
    requires k in m
    ensures |m - {k}| == |m| - 1
  {
    assert m.Keys == (m - {k}).Keys + {k};
    assert |m| == |m.Keys| && |m - {k}| == |(m - {k}).Keys|;
  }

  predicate InRange(interval: int) { interval != 0 ==> 10 <= interval <= 86400 }

  /** Why synchronizing the declared projects fails. */
  ghost predicate ProjectError(e: SyncError, ps: seq<ProjectConfig>, teams: set<string>, rows: map<string, Project>, d: Draw) {
    match e
    case ProjectFailed(slug) => exists p :: p in ps && p.slug == slug && (p.team !in teams || !IntervalOk(p))
    case KeyTaken(slug) => !FreshKeys(rows, ps, d)
    case _ => false
  }

  /** Why a statement of the transaction fails. */
  ghost predicate StatementFails(e: SyncError, s: State, f: ConfigFile, set_: Settings, d: Draw) {
    if e.TeamStillOwns? then f.teams.Some? && set_.teamPolicy.Delete? && exists slug :: Stranded(s, f, set_, d, slug)
    else ProjectError(e, ProjectsOf(f), TeamsSynced(s, f, set_, d).Keys, s.projects, d)
  }

  ghost predicate FreshUpTo(rows: map<string, Project>, ps: seq<ProjectConfig>, d: Draw, i: nat) {
    i <= |ps| && forall j :: 0 <= j < i ==> FreshAt(rows, ps, d, j)
  }

  /** What the i-th project's turn means for the whole list. */
  lemma Turn(rows: map<string, Project>, ps: seq<ProjectConfig>, d: Draw, i: nat, teams: set<string>,
             now: map<string, Project>)
    requires Distinct(ps, PROJECT_KEY) && i < |ps| && FreshUpTo(rows, ps, d, i)
    requires now == Upsert(rows, ps[..i], PROJECT_KEY, ProjectRule(d))
    ensures var p := ps[i];
            && (p.team !in teams || !InRange(DeclaredFields(p, d.retention).interval) ==>
                  ProjectError(ProjectFailed(p.slug), ps, teams, rows, d))
            && if p.slug !in now && Taken(now, DrawnKeys(d, p.slug)) then ProjectError(KeyTaken(p.slug), ps, teams, rows, d)
               else FreshUpTo(rows, ps, d, i + 1)
  {
    assert ps[i] in ps;
    TakenAtTurn(rows, ps, d, i);
  }

  lemma SameKeysSameFresh(a: map<string, Project>, b: map<string, Project>, ps: seq<ProjectConfig>, d: Draw)
    requires a.Keys == b.Keys && forall n :: n in a ==> a[n].keys == b[n].keys
    ensures FreshKeys(a, ps, d) <==> FreshKeys(b, ps, d)
  {
    forall i | 0 <= i < |ps|
      ensures FreshAt(a, ps, d, i) <==> FreshAt(b, ps, d, i)
    {
      assert forall n :: n in a ==> Apart(DrawnKeys(d, ps[i].slug), a[n].keys) == Apart(DrawnKeys(d, ps[i].slug), b[n].keys);
    }
  }

  lemma SameProjects(s: State, s': State, f: ConfigFile, set_: Settings, d: Draw)
    requires s.projects == s'.projects
    ensures ProjectsSynced(s', f, set_, d) == ProjectsSynced(s, f, set_, d)
    ensures ProjectsAtStart(s', set_) == ProjectsAtStart(s, set_)
  {
  }

  /** The phases together are the application. */
  lemma Assemble(s: State, f: ConfigFile, set_: Settings, d: Draw, r: State, declared: seq<Action>,
                 plog: seq<Action>, tlog: seq<Action>)
    requires r.users == s.users && r.groupsOf == s.groupsOf
    requires if f.projects.None? then r.projects == ProjectsSynced(s, f, set_, d) && r.events == s.events && plog == []
             else ProjectsPruned(ProjectsSynced(s, f, set_, d), s.events, Slugs(f.projects.value), set_.projectPolicy, d.now,
                                 r.projects, r.events, plog)
    requires if f.teams.None? then r.teams == TeamsSynced(s, f, set_, d) && tlog == []
             else TeamsPruned(TeamsSynced(s, f, set_, d), TeamNames(f.teams.value), set_.teamPolicy, d.now, r.teams, tlog)
    requires declared == DeclaredActions(s, f, set_, d)
    ensures r == Applied(s, f, set_, d) && Reported(declared + plog + tlog, s, f, set_, d, plog, tlog)
  {
  }

  lemma StrandedNow(s: State, f: ConfigFile, set_: Settings, d: Draw, projects: map<string, Project>)
    requires projects == ProjectsLeft(s, f, set_, d) && f.teams.Some?
    requires exists slug :: slug in projects && projects[slug].team in TeamsSynced(s, f, set_, d) && projects[slug].team !in TeamNames(f.teams.value)
    ensures exists slug :: Stranded(s, f, set_, d, slug)
  {
    var slug :| slug in projects && projects[slug].team in TeamsSynced(s, f, set_, d) && projects[slug].team !in TeamNames(f.teams.value);
    assert Stranded(s, f, set_, d, slug);
  }

  lemma UpsertSameRule(s: State, s': State, rows: map<string, Team>, ts: seq<TeamConfig>, d: Draw)
    requires s.users == s'.users && s.groupsOf == s'.groupsOf
    ensures Upsert(rows, ts, TEAM_KEY, TeamRule(s, d)) == Upsert(rows, ts, TEAM_KEY, TeamRule(s', d))
    ensures Notes(rows, ts, TEAM_KEY, TeamRule(s, d), TeamNote()) == Notes(rows, ts, TEAM_KEY, TeamRule(s', d), TeamNote())
    decreases |ts|
  {
    if ts != [] {
      var n := |ts| - 1;
      UpsertSameRule(s, s', rows, ts[..n], d);
      SameUsersSameTeam(Row(Upsert(rows, ts[..n], TEAM_KEY, TeamRule(s, d)), ts[n].name), ts[n], s, s', d);
    }
  }
}
