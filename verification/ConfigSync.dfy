/** What one application of a configuration file does to the database (src/adapters/config_sync.rs), table by
    table, and what follows: the plan is sound, the result is the declared one, and applying it again is a
    no-op. Tables are maps: teams by unique name, projects by unique slug. */
module ConfigSync {
  import opened Text
  import opened Upserts
  import opened ConfigFiles

  type Time = int

  /** `createdAt` survives a change of role: the upsert updates the role only. */
  datatype Member = Member(role: Role, createdAt: Time)

  /** A team with the rows that reference it (and are deleted with it). */
  datatype Team = Team(id: string, createdAt: Time, updatedAt: Time, orphanedAt: Option<Time>,
                       emails: map<string, Role>, groups: map<string, Role>, members: map<string, Member>)

  datatype Fields = Fields(name: string, retentionEvents: int, retentionDays: int, webhookUrl: Option<string>,
                           interval: int, severity: string)

  /** What a project is known by outside; no sync may change it. */
  datatype Keys = Keys(id: string, shortId: string, dsn: string)

  datatype Project = Project(keys: Keys, team: string, fields: Fields, createdAt: Time, updatedAt: Time,
                             orphanedAt: Option<Time>)

  /** `events` maps an event to the id of its project; `groupsOf` holds the SSO groups last seen. */
  datatype State = State(teams: map<string, Team>, projects: map<string, Project>, users: map<string, string>,
                         groupsOf: map<string, set<string>>, events: map<string, string>)

  /** One application's inputs besides the file: the time, the default retention, and the random
      identifiers drawn for new rows. */
  datatype Draw = Draw(now: Time, retention: int, teamId: map<string, string>, projectKeys: map<string, Keys>)

  // ---- membership ----

  function SeenGroups(groupsOf: map<string, set<string>>, user: string): set<string> {
    if user in groupsOf then groupsOf[user] else {}
  }

  function GroupsOf(s: State, user: string): set<string> { SeenGroups(s.groupsOf, user) }

  /** The roles granted to a user by e-mail address and by SSO group. */
  function Matching(emails: map<string, Role>, groups: map<string, Role>, email: string, seen: set<string>): set<Role> {
    (if Lower(email) in emails then {emails[Lower(email)]} else {}) + (set g | g in seen && g in groups :: groups[g])
  }

  function RoleFor(t: Team, email: string, seen: set<string>): Option<Role> {
    MaxRole(Matching(t.emails, t.groups, email, seen))
  }

  function WithRole(members: map<string, Member>, user: string, role: Option<Role>, now: Time): map<string, Member> {
    if role.None? then members - {user}
    else members[user := Member(role.value, if user in members then members[user].createdAt else now)]
  }

  function ReconcileMember(t: Team, user: string, email: string, seen: set<string>, now: Time): Team {
    t.(members := WithRole(t.members, user, RoleFor(t, email, seen), now))
  }

  /** The membership after every user has been reconciled. */
  function ReconciledMembers(t: Team, s: State, now: Time): map<string, Member> {
    map u | u in t.members.Keys + s.users.Keys
            && (u in s.users ==> RoleFor(t, s.users[u], GroupsOf(s, u)).Some?)
    :: if u in s.users
       then Member(RoleFor(t, s.users[u], GroupsOf(s, u)).value, if u in t.members then t.members[u].createdAt else now)
       else t.members[u]
  }

  // ---- teams ----

  function GrantMap(gs: seq<Grant>): map<string, Role> {
    if gs == [] then map[] else GrantMap(gs[..|gs| - 1])[gs[|gs| - 1].to := gs[|gs| - 1].role]
  }

  /** E-mail grants are stored under the lower-cased address. */
  function Lowered(gs: seq<Grant>): (r: seq<Grant>)
    ensures |r| == |gs|
  {
    seq(|gs|, i requires 0 <= i < |gs| => Grant(Lower(gs[i].to), gs[i].role))
  }

  function EmailMap(gs: seq<Grant>): map<string, Role> { GrantMap(Lowered(gs)) }

  function GroupMap(gs: seq<Grant>): map<string, Role> { GrantMap(gs) }

  predicate GrantsDiffer(row: Team, t: TeamConfig) {
    row.emails != EmailMap(Listed(t.members)) || row.groups != GroupMap(Listed(t.ssoGroups))
  }

  function TeamKind(row: Option<Team>, t: TeamConfig): ActionKind {
    PlanPresent(row.Some?, row.Some? && row.value.orphanedAt.Some?, row.Some? && GrantsDiffer(row.value, t))
  }

  function Drawn(ids: map<string, string>, key: string): string { if key in ids then ids[key] else "" }

  function NewTeam(name: string, d: Draw): Team {
    Team(Drawn(d.teamId, name), d.now, d.now, None, map[], map[], map[])
  }

  /** The team row proper, before its grants are rewritten. */
  function TeamRow(row: Option<Team>, t: TeamConfig, d: Draw): Team { RowForKind(TeamKind(row, t), row, t.name, d) }

  function RowForKind(kind: ActionKind, row: Option<Team>, name: string, d: Draw): Team {
    if row.None? then NewTeam(name, d)
    else if kind == Unchanged then row.value
    else row.value.(updatedAt := d.now, orphanedAt := None)
  }

  function TeamAfter(row: Option<Team>, t: TeamConfig, s: State, d: Draw): Team {
    var granted := TeamRow(row, t, d).(emails := EmailMap(Listed(t.members)), groups := GroupMap(Listed(t.ssoGroups)));
    granted.(members := ReconciledMembers(granted, s, d.now))
  }

  function TeamRule(s: State, d: Draw): (Option<Team>, TeamConfig) -> Team {
    (row: Option<Team>, t: TeamConfig) => TeamAfter(row, t, s, d)
  }

  function TeamNote(): (Option<Team>, TeamConfig) -> Action {
    (row: Option<Team>, t: TeamConfig) => Action(TeamEntity, t.name, TeamKind(row, t))
  }

  // ---- projects ----

  function DeclaredFields(p: ProjectConfig, retention: int): Fields {
    Fields(p.name, if p.retentionEvents.Some? then p.retentionEvents.value else retention,
           if p.retentionDays.Some? then p.retentionDays.value else 0, p.webhookUrl,
           if p.interval.Some? then p.interval.value else 0, if p.severity.Some? then p.severity.value else "")
  }

  function ProjectKind(row: Option<Project>, p: ProjectConfig, retention: int): ActionKind {
    PlanPresent(row.Some?, row.Some? && row.value.orphanedAt.Some?,
                row.Some? && (row.value.team != p.team || row.value.fields != DeclaredFields(p, retention)))
  }

  function DrawnKeys(d: Draw, slug: string): Keys {
    if slug in d.projectKeys then d.projectKeys[slug] else Keys("", "", "")
  }

  function ProjectAfter(row: Option<Project>, p: ProjectConfig, d: Draw): Project {
    match ProjectKind(row, p, d.retention)
    case Create => Project(DrawnKeys(d, p.slug), p.team, DeclaredFields(p, d.retention), d.now, d.now, None)
    case Unchanged => row.value
    case _ => row.value.(team := p.team, fields := DeclaredFields(p, d.retention), orphanedAt := None, updatedAt := d.now)
  }

  function ProjectRule(d: Draw): (Option<Project>, ProjectConfig) -> Project {
    (row: Option<Project>, p: ProjectConfig) => ProjectAfter(row, p, d)
  }

  function ProjectNote(d: Draw): (Option<Project>, ProjectConfig) -> Action {
    (row: Option<Project>, p: ProjectConfig) => Action(ProjectEntity, p.slug, ProjectKind(row, p, d.retention))
  }

  // ---- what is not declared ----

  function PruneProjects(projects: map<string, Project>, declared: set<string>, policy: OrphanPolicy, now: Time):
    map<string, Project>
  {
    map slug | slug in projects && (slug in declared || policy.Readonly?)
    :: if slug in declared || projects[slug].orphanedAt.Some? then projects[slug]
       else projects[slug].(orphanedAt := Some(now))
  }

  /** The events that survive: those whose project is not deleted. */
  function PruneEvents(events: map<string, string>, projects: map<string, Project>, declared: set<string>,
                       policy: OrphanPolicy): map<string, string>
  {
    map e | e in events && !(policy.Delete? && exists slug :: slug in projects && slug !in declared && projects[slug].keys.id == events[e])
    :: events[e]
  }

  function PruneTeams(teams: map<string, Team>, declared: set<string>, policy: OrphanPolicy, now: Time): map<string, Team> {
    map name | name in teams && (name in declared || policy.Readonly?)
    :: if name in declared || teams[name].orphanedAt.Some? then teams[name]
       else teams[name].(orphanedAt := Some(now))
  }

  function ClearTeams(teams: map<string, Team>): map<string, Team> {
    map n | n in teams :: teams[n].(orphanedAt := None)
  }

  function ClearProjects(projects: map<string, Project>): map<string, Project> {
    map n | n in projects :: projects[n].(orphanedAt := None)
  }

  // ---- one application ----

  /** The rows as they stand when sync begins: management by the UI lifts every orphan mark. */
  function TeamsAtStart(s: State, set_: Settings): map<string, Team> {
    if set_.teamSource.Ui? then ClearTeams(s.teams) else s.teams
  }

  function ProjectsAtStart(s: State, set_: Settings): map<string, Project> {
    if set_.projectSource.Ui? then ClearProjects(s.projects) else s.projects
  }

  function TeamsSynced(s: State, f: ConfigFile, set_: Settings, d: Draw): map<string, Team> {
    Upsert(TeamsAtStart(s, set_), TeamsOf(f), TEAM_KEY, TeamRule(s, d))
  }

  function ProjectsSynced(s: State, f: ConfigFile, set_: Settings, d: Draw): map<string, Project> {
    Upsert(ProjectsAtStart(s, set_), ProjectsOf(f), PROJECT_KEY, ProjectRule(d))
  }

  function TeamsLeft(s: State, f: ConfigFile, set_: Settings, d: Draw): map<string, Team> {
    var synced := TeamsSynced(s, f, set_, d);
    if f.teams.None? then synced else PruneTeams(synced, TeamNames(f.teams.value), set_.teamPolicy, d.now)
  }

  function ProjectsLeft(s: State, f: ConfigFile, set_: Settings, d: Draw): map<string, Project> {
    var synced := ProjectsSynced(s, f, set_, d);
    if f.projects.None? then synced else PruneProjects(synced, Slugs(f.projects.value), set_.projectPolicy, d.now)
  }

  function EventsLeft(s: State, f: ConfigFile, set_: Settings, d: Draw): map<string, string> {
    if f.projects.None? then s.events
    else PruneEvents(s.events, ProjectsSynced(s, f, set_, d), Slugs(f.projects.value), set_.projectPolicy)
  }

  function Applied(s: State, f: ConfigFile, set_: Settings, d: Draw): State {
    State(TeamsLeft(s, f, set_, d), ProjectsLeft(s, f, set_, d), s.users, s.groupsOf, EventsLeft(s, f, set_, d))
  }

  /** The actions reported for declared entities, in file order. */
  function DeclaredActions(s: State, f: ConfigFile, set_: Settings, d: Draw): seq<Action> {
    Notes(TeamsAtStart(s, set_), TeamsOf(f), TEAM_KEY, TeamRule(s, d), TeamNote())
    + Notes(ProjectsAtStart(s, set_), ProjectsOf(f), PROJECT_KEY, ProjectRule(d), ProjectNote(d))
  }

  // ---- the random identifiers ----

  /** Each of the three is under a unique index. */
  predicate Apart(a: Keys, b: Keys) { a.id != b.id && a.shortId != b.shortId && a.dsn != b.dsn }

  predicate Taken(projects: map<string, Project>, k: Keys) { exists n :: n in projects && !Apart(k, projects[n].keys) }

  /** What is drawn for the i-th project, if it is new, is free: no row has it, nor has an earlier new one. */
  predicate FreshAt(rows: map<string, Project>, ps: seq<ProjectConfig>, d: Draw, i: nat)
    requires i < |ps|
  {
    ps[i].slug !in rows ==>
      !Taken(rows, DrawnKeys(d, ps[i].slug))
      && forall j :: 0 <= j < i && ps[j].slug !in rows ==> Apart(DrawnKeys(d, ps[i].slug), DrawnKeys(d, ps[j].slug))
  }

  predicate FreshKeys(rows: map<string, Project>, ps: seq<ProjectConfig>, d: Draw) {
    forall i :: 0 <= i < |ps| ==> FreshAt(rows, ps, d, i)
  }

  predicate FreshDraw(s: State, f: ConfigFile, d: Draw) { FreshKeys(s.projects, ProjectsOf(f), d) }

  predicate UniqueKeys(projects: map<string, Project>) {
    forall m, n :: m in projects && n in projects && m != n ==> Apart(projects[m].keys, projects[n].keys)
  }

  /** The keys a slug has after some declarations: its old ones, or those drawn for it. */
  function KeysAfter(rows: map<string, Project>, d: Draw, slug: string): Keys {
    if slug in rows then rows[slug].keys else DrawnKeys(d, slug)
  }

  lemma UpsertedKeys(rows: map<string, Project>, ps: seq<ProjectConfig>, d: Draw)
    requires Distinct(ps, PROJECT_KEY)
    ensures var r := Upsert(rows, ps, PROJECT_KEY, ProjectRule(d));
            r.Keys == rows.Keys + Slugs(ps) && forall n :: n in r ==> r[n].keys == KeysAfter(rows, d, n)
  {
    var r := Upsert(rows, ps, PROJECT_KEY, ProjectRule(d));
    UpsertKeys(rows, ps, PROJECT_KEY, ProjectRule(d));
    forall n | n in r
      ensures r[n].keys == KeysAfter(rows, d, n)
    {
      if n in Slugs(ps) {
        var i := KeyIndex(ps, PROJECT_KEY, n);
        UpsertHit(rows, ps, PROJECT_KEY, ProjectRule(d), i);
      } else {
        UpsertMiss(rows, ps, PROJECT_KEY, ProjectRule(d), n);
      }
    }
  }

  /** At its turn the i-th project's insert meets a taken key exactly when its draw is not fresh. */
  lemma TakenAtTurn(rows: map<string, Project>, ps: seq<ProjectConfig>, d: Draw, i: nat)
    requires Distinct(ps, PROJECT_KEY) && i < |ps|
    ensures var r := Upsert(rows, ps[..i], PROJECT_KEY, ProjectRule(d));
            && (ps[i].slug in r <==> ps[i].slug in rows)
            && (ps[i].slug !in r ==> (Taken(r, DrawnKeys(d, ps[i].slug)) <==> !FreshAt(rows, ps, d, i)))
  {
    assert Distinct(ps[..i], PROJECT_KEY);
    UpsertedKeys(rows, ps[..i], d);
    SlugsBefore(ps, i);
    TakenBefore(rows, ps, d, i, Upsert(rows, ps[..i], PROJECT_KEY, ProjectRule(d)));
  }

  lemma SlugsBefore(ps: seq<ProjectConfig>, i: nat)
    requires Distinct(ps, PROJECT_KEY) && i < |ps|
    ensures ps[i].slug !in Slugs(ps[..i])
    ensures forall j :: 0 <= j < i ==> ps[j].slug in Slugs(ps[..i])
  {
    assert forall j :: 0 <= j < i ==> PROJECT_KEY(ps[..i][j]) == ps[j].slug && PROJECT_KEY(ps[j]) != PROJECT_KEY(ps[i]);
  }

  lemma TakenBefore(rows: map<string, Project>, ps: seq<ProjectConfig>, d: Draw, i: nat, r: map<string, Project>)
    requires i < |ps| && r.Keys == rows.Keys + Slugs(ps[..i]) && forall n :: n in r ==> r[n].keys == KeysAfter(rows, d, n)
    requires forall j :: 0 <= j < i ==> ps[j].slug in Slugs(ps[..i])
    ensures ps[i].slug !in rows ==> (Taken(r, DrawnKeys(d, ps[i].slug)) <==> !FreshAt(rows, ps, d, i))
  {
    var k := DrawnKeys(d, ps[i].slug);
    if Taken(r, k) {
      var n :| n in r && !Apart(k, r[n].keys);
      if n !in rows {
        var j := KeyIndex(ps[..i], PROJECT_KEY, n);
      }
    }
    if n :| n in rows && !Apart(k, rows[n].keys) {
      assert n in r && r[n].keys == rows[n].keys;
    }
    if j :| 0 <= j < i && ps[j].slug !in rows && !Apart(k, DrawnKeys(d, ps[j].slug)) {
      assert ps[j].slug in r;
    }
  }

  function SnapshotOf(s: State): Snapshot {
    Snapshot(s.teams.Keys, map slug | slug in s.projects :: s.projects[slug].team)
  }

  // ---- the plan is sound ----

  lemma FoundByIndex(ps: seq<ProjectConfig>, i: nat)
    requires Distinct(ps, PROJECT_KEY) && i < |ps|
    ensures FindProject(ps, ps[i].slug) == Some(ps[i])
  {
    assert PROJECT_KEY(ps[i]) == ps[i].slug && ps[i].slug in Slugs(ps);
    var p := FindProject(ps, ps[i].slug).value;
    var j :| 0 <= j < |ps| && ps[j] == p;
    assert PROJECT_KEY(ps[j]) == ps[i].slug;
  }

  lemma TeamKeys(s: State, f: ConfigFile, set_: Settings, d: Draw)
    requires Parsed(f, set_)
    ensures TeamsSynced(s, f, set_, d).Keys == s.teams.Keys + TeamNames(TeamsOf(f))
  {
    UpsertKeys(TeamsAtStart(s, set_), TeamsOf(f), TEAM_KEY, TeamRule(s, d));
  }

  lemma TeamUntouched(s: State, f: ConfigFile, set_: Settings, d: Draw, n: string)
    requires Parsed(f, set_) && n in s.teams && n !in TeamNames(TeamsOf(f))
    ensures n in TeamsSynced(s, f, set_, d) && TeamsSynced(s, f, set_, d)[n] == TeamsAtStart(s, set_)[n]
  {
    UpsertMiss(TeamsAtStart(s, set_), TeamsOf(f), TEAM_KEY, TeamRule(s, d), n);
  }

  lemma TeamSynced(s: State, f: ConfigFile, set_: Settings, d: Draw, i: nat)
    requires Parsed(f, set_) && i < |TeamsOf(f)|
    ensures var t := TeamsOf(f)[i];
            && t.name in TeamNames(TeamsOf(f)) && t.name in TeamsSynced(s, f, set_, d)
            && TeamsSynced(s, f, set_, d)[t.name] == TeamAfter(Row(s.teams, t.name), t, s, d)
  {
    var ts := TeamsOf(f);
    UpsertHit(s.teams, ts, TEAM_KEY, TeamRule(s, d), i);
    assert TEAM_KEY(ts[i]) == ts[i].name;
  }

  lemma ProjectKeys(s: State, f: ConfigFile, set_: Settings, d: Draw)
    requires Parsed(f, set_)
    ensures ProjectsSynced(s, f, set_, d).Keys == s.projects.Keys + Slugs(ProjectsOf(f))
  {
    UpsertKeys(ProjectsAtStart(s, set_), ProjectsOf(f), PROJECT_KEY, ProjectRule(d));
  }

  lemma ProjectUntouched(s: State, f: ConfigFile, set_: Settings, d: Draw, n: string)
    requires Parsed(f, set_) && n in s.projects && n !in Slugs(ProjectsOf(f))
    ensures n in ProjectsSynced(s, f, set_, d) && ProjectsSynced(s, f, set_, d)[n] == ProjectsAtStart(s, set_)[n]
  {
    UpsertMiss(ProjectsAtStart(s, set_), ProjectsOf(f), PROJECT_KEY, ProjectRule(d), n);
  }

  lemma ProjectSynced(s: State, f: ConfigFile, set_: Settings, d: Draw, i: nat)
    requires Parsed(f, set_) && i < |ProjectsOf(f)|
    ensures var p := ProjectsOf(f)[i];
            && p.slug in Slugs(ProjectsOf(f)) && p.slug in ProjectsSynced(s, f, set_, d)
            && ProjectsSynced(s, f, set_, d)[p.slug] == ProjectAfter(Row(s.projects, p.slug), p, d)
  {
    var ps := ProjectsOf(f);
    UpsertHit(s.projects, ps, PROJECT_KEY, ProjectRule(d), i);
    assert PROJECT_KEY(ps[i]) == ps[i].slug;
  }

  /** `final_project_team` predicts exactly the owners that project sync and pruning leave behind. */
  lemma FinalOwners(s: State, f: ConfigFile, set_: Settings, d: Draw, slug: string)
    requires Parsed(f, set_)
    ensures var left := ProjectsLeft(s, f, set_, d);
            && (slug in s.projects ==>
                  FinalProjectTeam(f, set_, slug, s.projects[slug].team)
                  == if slug in left then Some(left[slug].team) else None)
            && (slug !in s.projects && slug in left ==>
                  FindProject(ProjectsOf(f), slug).Some? && left[slug].team == FindProject(ProjectsOf(f), slug).value.team)
  {
    ProjectKeys(s, f, set_, d);
    if slug in Slugs(ProjectsOf(f)) {
      var i := KeyIndex(ProjectsOf(f), PROJECT_KEY, slug);
      FoundByIndex(ProjectsOf(f), i);
      ProjectSynced(s, f, set_, d, i);
    } else if slug in s.projects {
      ProjectUntouched(s, f, set_, d, slug);
    }
  }

  /** A project left on a team that is about to be deleted. */
  ghost predicate Stranded(s: State, f: ConfigFile, set_: Settings, d: Draw, slug: string) {
    var left := ProjectsLeft(s, f, set_, d);
    slug in left && left[slug].team in TeamsSynced(s, f, set_, d) && left[slug].team !in TeamNames(TeamsOf(f))
  }

  lemma StrandedIsKept(s: State, f: ConfigFile, set_: Settings, d: Draw, slug: string)
    requires Parsed(f, set_) && ReferencesOk(f, SnapshotOf(s)) && f.teams.Some?
    ensures Stranded(s, f, set_, d, slug) <==> slug in s.projects && Kept(f, set_, SnapshotOf(s), slug)
  {
    FinalOwners(s, f, set_, d, slug);
    TeamKeys(s, f, set_, d);
  }

  /** Given valid references, the ownership check rejects exactly when `prune_team` would fail. */
  lemma OwnershipCheckIsExact(s: State, f: ConfigFile, set_: Settings, d: Draw)
    requires Parsed(f, set_) && ReferencesOk(f, SnapshotOf(s)) && f.teams.Some? && set_.teamPolicy.Delete?
    ensures StillOwned(f, set_, SnapshotOf(s)) <==> exists slug :: Stranded(s, f, set_, d, slug)
  {
    if StillOwned(f, set_, SnapshotOf(s)) {
      var slug :| slug in s.projects && Kept(f, set_, SnapshotOf(s), slug);
      StrandedIsKept(s, f, set_, d, slug);
    }
    if slug :| Stranded(s, f, set_, d, slug) {
      StrandedIsKept(s, f, set_, d, slug);
      assert Kept(f, set_, SnapshotOf(s), slug);
    }
  }

  /** Once the plan is accepted nothing later in the transaction can fail: every declared project finds its
      team, and no team to be deleted still owns a project. */
  lemma PlanSound(s: State, f: ConfigFile, set_: Settings, d: Draw)
    requires Parsed(f, set_) && PlanAccepted(f, set_, SnapshotOf(s))
    ensures forall p :: p in ProjectsOf(f) ==> p.team in TeamsSynced(s, f, set_, d)
    ensures f.teams.Some? && set_.teamPolicy.Delete? ==> !exists slug :: Stranded(s, f, set_, d, slug)
  {
    TeamKeys(s, f, set_, d);
    if f.teams.Some? && set_.teamPolicy.Delete? {
      OwnershipCheckIsExact(s, f, set_, d);
    }
  }

  // ---- convergence ----

  predicate DeclaredTeam(row: Team, t: TeamConfig) {
    row.orphanedAt.None? && row.emails == EmailMap(Listed(t.members)) && row.groups == GroupMap(Listed(t.ssoGroups))
  }

  predicate DeclaredProject(row: Project, p: ProjectConfig, retention: int) {
    row.orphanedAt.None? && row.team == p.team && row.fields == DeclaredFields(p, retention)
  }

  lemma TeamLeft(s: State, f: ConfigFile, set_: Settings, d: Draw, i: nat)
    requires Parsed(f, set_) && i < |TeamsOf(f)|
    ensures var t, left := TeamsOf(f)[i], TeamsLeft(s, f, set_, d);
            && t.name in left && DeclaredTeam(left[t.name], t)
            && left[t.name] == TeamAfter(Row(s.teams, t.name), t, s, d)
  {
    TeamSynced(s, f, set_, d, i);
  }

  lemma ProjectLeft(s: State, f: ConfigFile, set_: Settings, d: Draw, i: nat)
    requires Parsed(f, set_) && i < |ProjectsOf(f)|
    ensures var p, left := ProjectsOf(f)[i], ProjectsLeft(s, f, set_, d);
            && p.slug in left && DeclaredProject(left[p.slug], p, d.retention)
            && left[p.slug] == ProjectAfter(Row(s.projects, p.slug), p, d)
  {
    ProjectSynced(s, f, set_, d, i);
  }

  /** After an application the live teams and projects are exactly the declared ones. */
  lemma LiveIsDeclared(s: State, f: ConfigFile, set_: Settings, d: Draw, n: string)
    requires Parsed(f, set_)
    ensures var r := Applied(s, f, set_, d);
            && (f.teams.Some? ==> (n in r.teams && r.teams[n].orphanedAt.None? <==> n in TeamNames(f.teams.value)))
            && (f.projects.Some? ==> (n in r.projects && r.projects[n].orphanedAt.None? <==> n in Slugs(f.projects.value)))
  {
    if n in TeamNames(TeamsOf(f)) {
      var i := KeyIndex(TeamsOf(f), TEAM_KEY, n);
      TeamLeft(s, f, set_, d, i);
    }
    if n in Slugs(ProjectsOf(f)) {
      var i := KeyIndex(ProjectsOf(f), PROJECT_KEY, n);
      ProjectLeft(s, f, set_, d, i);
    }
  }

  /** Every declared team has the declared grants, every declared project the declared owner and fields. */
  lemma Converges(s: State, f: ConfigFile, set_: Settings, d: Draw)
    requires Parsed(f, set_)
    ensures var r := Applied(s, f, set_, d);
            && (forall i :: 0 <= i < |TeamsOf(f)| ==>
                  TeamsOf(f)[i].name in r.teams && DeclaredTeam(r.teams[TeamsOf(f)[i].name], TeamsOf(f)[i]))
            && (forall i :: 0 <= i < |ProjectsOf(f)| ==>
                  ProjectsOf(f)[i].slug in r.projects
                  && DeclaredProject(r.projects[ProjectsOf(f)[i].slug], ProjectsOf(f)[i], d.retention))
  {
    forall i | 0 <= i < |TeamsOf(f)|
      ensures TeamsOf(f)[i].name in TeamsLeft(s, f, set_, d)
              && DeclaredTeam(TeamsLeft(s, f, set_, d)[TeamsOf(f)[i].name], TeamsOf(f)[i])
    {
      TeamLeft(s, f, set_, d, i);
    }
    forall i | 0 <= i < |ProjectsOf(f)|
      ensures ProjectsOf(f)[i].slug in ProjectsLeft(s, f, set_, d)
              && DeclaredProject(ProjectsLeft(s, f, set_, d)[ProjectsOf(f)[i].slug], ProjectsOf(f)[i], d.retention)
    {
      ProjectLeft(s, f, set_, d, i);
    }
  }

  // ---- idempotence ----

  lemma MembersStable(t: Team, s: State, now: Time, later: Time)
    ensures var m := ReconciledMembers(t, s, now);
            ReconciledMembers(t.(members := m), s, later) == m
  {
    var m := ReconciledMembers(t, s, now);
    var t' := t.(members := m);
    assert forall u :: u in s.users ==> RoleFor(t', s.users[u], GroupsOf(s, u)) == RoleFor(t, s.users[u], GroupsOf(s, u));
    assert ReconciledMembers(t', s, later).Keys == m.Keys;
  }

  lemma SameUsersSameMembers(t: Team, s: State, s': State, now: Time)
    requires s.users == s'.users && s.groupsOf == s'.groupsOf
    ensures ReconciledMembers(t, s, now) == ReconciledMembers(t, s', now)
  {
    assert forall u :: GroupsOf(s, u) == GroupsOf(s', u);
    assert ReconciledMembers(t, s, now).Keys == ReconciledMembers(t, s', now).Keys;
  }

  lemma TeamStable(row: Option<Team>, t: TeamConfig, s: State, s': State, d: Draw, d': Draw)
    requires s.users == s'.users && s.groupsOf == s'.groupsOf
    ensures var r := TeamAfter(row, t, s, d);
            TeamKind(Some(r), t) == Unchanged && TeamAfter(Some(r), t, s', d') == r
  {
    var granted := TeamRow(row, t, d).(emails := EmailMap(Listed(t.members)), groups := GroupMap(Listed(t.ssoGroups)));
    MembersStable(granted, s, d.now, d'.now);
    SameUsersSameMembers(TeamAfter(row, t, s, d), s, s', d'.now);
  }

  lemma ProjectStable(row: Option<Project>, p: ProjectConfig, d: Draw, d': Draw)
    requires d.retention == d'.retention
    ensures var r := ProjectAfter(row, p, d);
            ProjectKind(Some(r), p, d'.retention) == Unchanged && ProjectAfter(Some(r), p, d') == r
  {
  }

  lemma PruneTeamsTwice(teams: map<string, Team>, declared: set<string>, policy: OrphanPolicy, now: Time, later: Time)
    ensures var r := PruneTeams(teams, declared, policy, now);
            PruneTeams(r, declared, policy, later) == r
  {
  }

  lemma PruneProjectsTwice(projects: map<string, Project>, declared: set<string>, policy: OrphanPolicy, now: Time, later: Time)
    ensures var r := PruneProjects(projects, declared, policy, now);
            PruneProjects(r, declared, policy, later) == r
            && forall events :: PruneEvents(events, r, declared, policy) == events
  {
    var r := PruneProjects(projects, declared, policy, now);
    forall events
      ensures PruneEvents(events, r, declared, policy) == events
    {
      assert policy.Delete? ==> forall slug :: slug in r ==> slug in declared;
    }
  }

  lemma TeamsUnchanged(s: State, f: ConfigFile, set_: Settings, d: Draw, d': Draw)
    requires Parsed(f, set_)
    ensures var r := Applied(s, f, set_, d);
            TeamsSynced(r, f, set_, d') == r.teams && TeamsLeft(r, f, set_, d') == r.teams
  {
    var r, ts := Applied(s, f, set_, d), TeamsOf(f);
    if f.teams.None? {
      assert ClearTeams(r.teams) == r.teams;
    } else {
      forall i | 0 <= i < |ts|
        ensures TEAM_KEY(ts[i]) in r.teams && TeamRule(r, d')(Some(r.teams[TEAM_KEY(ts[i])]), ts[i]) == r.teams[TEAM_KEY(ts[i])]
      {
        TeamLeft(s, f, set_, d, i);
        TeamStable(Row(s.teams, ts[i].name), ts[i], s, r, d, d');
      }
      UpsertFixpoint(r.teams, ts, TEAM_KEY, TeamRule(r, d'));
      PruneTeamsTwice(TeamsSynced(s, f, set_, d), TeamNames(ts), set_.teamPolicy, d.now, d'.now);
    }
  }

  lemma ProjectsUnchanged(s: State, f: ConfigFile, set_: Settings, d: Draw, d': Draw)
    requires Parsed(f, set_) && d.retention == d'.retention
    ensures var r := Applied(s, f, set_, d);
            && ProjectsSynced(r, f, set_, d') == r.projects && ProjectsLeft(r, f, set_, d') == r.projects
            && EventsLeft(r, f, set_, d') == r.events
  {
    var r, ps := Applied(s, f, set_, d), ProjectsOf(f);
    if f.projects.None? {
      assert ClearProjects(r.projects) == r.projects;
    } else {
      forall i | 0 <= i < |ps|
        ensures PROJECT_KEY(ps[i]) in r.projects
                && ProjectRule(d')(Some(r.projects[PROJECT_KEY(ps[i])]), ps[i]) == r.projects[PROJECT_KEY(ps[i])]
      {
        ProjectLeft(s, f, set_, d, i);
        ProjectStable(Row(s.projects, ps[i].slug), ps[i], d, d');
      }
      UpsertFixpoint(r.projects, ps, PROJECT_KEY, ProjectRule(d'));
      PruneProjectsTwice(ProjectsSynced(s, f, set_, d), Slugs(ps), set_.projectPolicy, d.now, d'.now);
    }
  }

  lemma TeamReport(s: State, f: ConfigFile, set_: Settings, d: Draw, d': Draw)
    requires Parsed(f, set_)
    ensures var r := Applied(s, f, set_, d);
            Notes(TeamsAtStart(r, set_), TeamsOf(f), TEAM_KEY, TeamRule(r, d'), TeamNote())
            == seq(|TeamsOf(f)|, i requires 0 <= i < |TeamsOf(f)| => Action(TeamEntity, TeamsOf(f)[i].name, Unchanged))
  {
    var r, ts := Applied(s, f, set_, d), TeamsOf(f);
    NotesAt(TeamsAtStart(r, set_), ts, TEAM_KEY, TeamRule(r, d'), TeamNote());
    forall i | 0 <= i < |ts|
      ensures TeamNote()(Row(TeamsAtStart(r, set_), TEAM_KEY(ts[i])), ts[i]) == Action(TeamEntity, ts[i].name, Unchanged)
    {
      TeamLeft(s, f, set_, d, i);
      TeamStable(Row(s.teams, ts[i].name), ts[i], s, r, d, d');
    }
  }

  lemma ProjectReport(s: State, f: ConfigFile, set_: Settings, d: Draw, d': Draw)
    requires Parsed(f, set_) && d.retention == d'.retention
    ensures var r := Applied(s, f, set_, d);
            Notes(ProjectsAtStart(r, set_), ProjectsOf(f), PROJECT_KEY, ProjectRule(d'), ProjectNote(d'))
            == seq(|ProjectsOf(f)|, i requires 0 <= i < |ProjectsOf(f)| => Action(ProjectEntity, ProjectsOf(f)[i].slug, Unchanged))
  {
    var r, ps := Applied(s, f, set_, d), ProjectsOf(f);
    NotesAt(ProjectsAtStart(r, set_), ps, PROJECT_KEY, ProjectRule(d'), ProjectNote(d'));
    forall i | 0 <= i < |ps|
      ensures ProjectNote(d')(Row(ProjectsAtStart(r, set_), PROJECT_KEY(ps[i])), ps[i]) == Action(ProjectEntity, ps[i].slug, Unchanged)
    {
      ProjectLeft(s, f, set_, d, i);
      ProjectStable(Row(s.projects, ps[i].slug), ps[i], d, d');
    }
  }

  /** Applying the same file again, at any later time and whatever identifiers are drawn, changes nothing
      and reports every declared entity once, as unchanged. */
  lemma Idempotent(s: State, f: ConfigFile, set_: Settings, d: Draw, d': Draw)
    requires Parsed(f, set_) && d.retention == d'.retention
    ensures var r := Applied(s, f, set_, d);
            && Applied(r, f, set_, d') == r
            && DeclaredActions(r, f, set_, d') == AllUnchanged(f)
  {
    var r := Applied(s, f, set_, d);
    TeamsUnchanged(s, f, set_, d, d');
    ProjectsUnchanged(s, f, set_, d, d');
    TeamReport(s, f, set_, d, d');
    ProjectReport(s, f, set_, d, d');
  }

  function AllUnchanged(f: ConfigFile): seq<Action> {
    seq(|TeamsOf(f)|, i requires 0 <= i < |TeamsOf(f)| => Action(TeamEntity, TeamsOf(f)[i].name, Unchanged))
    + seq(|ProjectsOf(f)|, i requires 0 <= i < |ProjectsOf(f)| => Action(ProjectEntity, ProjectsOf(f)[i].slug, Unchanged))
  }

  /** A file once accepted stays accepted after it has been applied, and draws no identifier any more. */
  lemma StaysAccepted(s: State, f: ConfigFile, set_: Settings, d: Draw, d': Draw)
    requires Parsed(f, set_) && PlanAccepted(f, set_, SnapshotOf(s))
    ensures PlanAccepted(f, set_, SnapshotOf(Applied(s, f, set_, d))) && FreshDraw(Applied(s, f, set_, d), f, d')
  {
    TeamKeys(s, f, set_, d);
    forall i | 0 <= i < |ProjectsOf(f)|
      ensures ProjectsOf(f)[i].slug in ProjectsLeft(s, f, set_, d)
    {
      ProjectSynced(s, f, set_, d, i);
    }
  }
}
