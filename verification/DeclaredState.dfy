/** What a configuration file means, in its own words (src/domain/config_file.rs, src/adapters/config_sync.rs): the
    row of every declared project and team field by field, the reported action, and who is a member of what. */
module DeclaredState {
  import opened Text
  import opened Upserts
  import opened ConfigFiles
  import opened ConfigSync
  import opened SyncHistory

  // ---- projects ----

  /** A declared value, or what stands for a missing one. */
  predicate Given<T(==)>(stored: T, declared: Option<T>, missing: T) {
    match declared
    case Some(v) => stored == v
    case None => stored == missing
  }

  /** The row says what the declaration says. */
  predicate AsDeclared(row: Project, p: ProjectConfig, retention: int) {
    && row.team == p.team && row.fields.name == p.name && row.fields.webhookUrl == p.webhookUrl
    && Given(row.fields.retentionEvents, p.retentionEvents, retention)
    && Given(row.fields.retentionDays, p.retentionDays, 0)
    && Given(row.fields.interval, p.interval, 0)
    && Given(row.fields.severity, p.severity, "")
  }

  lemma AsDeclaredExactly(row: Project, p: ProjectConfig, retention: int)
    ensures AsDeclared(row, p, retention) <==> row.team == p.team && row.fields == DeclaredFields(p, retention)
  {
  }

  /** After an application every declared project is live and as declared. A new one has the keys drawn for it;
      one that was there keeps its keys and its age, and is touched only if it was orphaned or different. */
  lemma ProjectIsAsDeclared(s: State, f: ConfigFile, set_: Settings, d: Draw, p: ProjectConfig)
    requires Parsed(f, set_) && p in ProjectsOf(f)
    ensures var r := Applied(s, f, set_, d).projects;
            && p.slug in r && r[p.slug].orphanedAt.None? && AsDeclared(r[p.slug], p, d.retention)
            && (p.slug !in s.projects ==>
                  r[p.slug].createdAt == d.now == r[p.slug].updatedAt
                  && (p.slug in d.projectKeys ==> r[p.slug].keys == d.projectKeys[p.slug]))
            && (p.slug in s.projects ==>
                  var was := s.projects[p.slug];
                  && r[p.slug].keys == was.keys && r[p.slug].createdAt == was.createdAt
                  && r[p.slug].updatedAt == (if was.orphanedAt.None? && AsDeclared(was, p, d.retention) then was.updatedAt else d.now))
  {
    var i :| 0 <= i < |ProjectsOf(f)| && ProjectsOf(f)[i] == p;
    ProjectLeft(s, f, set_, d, i);
    AsDeclaredExactly(Applied(s, f, set_, d).projects[p.slug], p, d.retention);
    if p.slug in s.projects {
      AsDeclaredExactly(s.projects[p.slug], p, d.retention);
    }
  }

  /** What is reported for the i-th declared project. */
  lemma ProjectReport(s: State, f: ConfigFile, set_: Settings, d: Draw, i: nat)
    requires Parsed(f, set_) && i < |ProjectsOf(f)|
    ensures var p, actions := ProjectsOf(f)[i], DeclaredActions(s, f, set_, d);
            var n := |TeamsOf(f)| + i;
            && n < |actions| && actions[n].entity == ProjectEntity && actions[n].key == p.slug
            && actions[n].kind == (if p.slug !in s.projects then Create
                                   else if s.projects[p.slug].orphanedAt.Some? then Restore
                                   else if AsDeclared(s.projects[p.slug], p, d.retention) then Unchanged
                                   else Update)
  {
    NotesAt(TeamsAtStart(s, set_), TeamsOf(f), TEAM_KEY, TeamRule(s, d), TeamNote());
    NotesAt(s.projects, ProjectsOf(f), PROJECT_KEY, ProjectRule(d), ProjectNote(d));
    KindMeans(Row(s.projects, ProjectsOf(f)[i].slug), ProjectsOf(f)[i], d.retention);
  }

  lemma KindMeans(row: Option<Project>, p: ProjectConfig, retention: int)
    ensures ProjectKind(row, p, retention)
            == if row.None? then Create else if row.value.orphanedAt.Some? then Restore
               else if AsDeclared(row.value, p, retention) then Unchanged else Update
  {
    if row.Some? {
      AsDeclaredExactly(row.value, p, retention);
    }
  }

  /** A project that is not declared, where projects are and the policy does not delete, changes in its orphan
      mark only, which is set once. */
  lemma UndeclaredProjectIsMarked(s: State, f: ConfigFile, set_: Settings, d: Draw, slug: string)
    requires Parsed(f, set_) && f.projects.Some? && set_.projectPolicy.Readonly?
    requires slug in s.projects && forall p :: p in f.projects.value ==> p.slug != slug
    ensures var r, was := Applied(s, f, set_, d).projects, s.projects[slug];
            slug in r && r[slug] == was.(orphanedAt := if was.orphanedAt.Some? then was.orphanedAt else Some(d.now))
  {
    ProjectUntouched(s, f, set_, d, slug);
  }

  // ---- grants ----

  /** The same character, or the two cases of one ASCII letter. */
  predicate SameLetter(a: char, b: char) {
    a == b || ('A' <= a <= 'Z' && b as int == a as int + 32) || ('A' <= b <= 'Z' && a as int == b as int + 32)
  }

  predicate IgnoringCase(a: string, b: string) { |a| == |b| && forall i :: 0 <= i < |a| ==> SameLetter(a[i], b[i]) }

  lemma LowerIgnoresCase(a: string, b: string)
    ensures Lower(a) == Lower(b) <==> IgnoringCase(a, b)
  {
    forall i | 0 <= i < |a| && |a| == |b|
      ensures Lower(a)[i] == Lower(b)[i] <==> SameLetter(a[i], b[i])
    {
      LowerSameLetter(a[i], b[i]);
    }
    if Lower(a) == Lower(b) {
      assert |a| == |b|;
    }
  }

  lemma LowerSameLetter(x: char, y: char)
    ensures ToLower(x) == ToLower(y) <==> SameLetter(x, y)
  {
    if ToLower(x) == ToLower(y) {
      assert ToLower(x) as int == ToLower(y) as int;
    }
    assert SameLetter(x, y) ==> ToLower(x) as int == ToLower(y) as int;
  }

  /** Some declared grant gives this role to the address or to one of the groups. */
  ghost predicate Grants(t: TeamConfig, email: string, groups: set<string>, role: Role) {
    (t.members.Some? && exists g :: g in t.members.value && IgnoringCase(g.to, email) && g.role == role)
    || (t.ssoGroups.Some? && exists g :: g in t.ssoGroups.value && g.to in groups && g.role == role)
  }

  lemma {:induction false} GrantMapFinds(gs: seq<Grant>, k: string)
    requires DistinctGroups(gs)
    ensures k in GrantMap(gs) <==> exists g :: g in gs && g.to == k
    ensures forall g :: g in gs && g.to == k ==> GrantMap(gs)[k] == g.role
  {
    if gs != [] {
      var n := |gs| - 1;
      GrantMapFinds(gs[..n], k);
      assert forall g :: g in gs <==> g in gs[..n] || g == gs[n];
      assert gs[n].to == k ==> forall g :: g in gs[..n] ==> g.to != k;
    }
  }

  lemma EmailMapFinds(gs: seq<Grant>, email: string)
    requires DistinctEmails(gs)
    ensures Lower(email) in EmailMap(gs) <==> exists g :: g in gs && IgnoringCase(g.to, email)
    ensures forall g :: g in gs && IgnoringCase(g.to, email) ==> EmailMap(gs)[Lower(email)] == g.role
  {
    var low, k := Lowered(gs), Lower(email);
    GrantMapFinds(low, k);
    forall g | g in gs
      ensures Grant(Lower(g.to), g.role) in low && (Lower(g.to) == k <==> IgnoringCase(g.to, email))
    {
      var i :| 0 <= i < |gs| && gs[i] == g;
      assert low[i] == Grant(Lower(g.to), g.role);
      LowerIgnoresCase(g.to, email);
    }
    if k in EmailMap(gs) {
      var h :| h in low && h.to == k;
      var i :| 0 <= i < |low| && low[i] == h;
      assert gs[i] in gs && IgnoringCase(gs[i].to, email);
    }
  }

  /** The role as the file has it: Admin wherever a grant says so, else Contributor if one says that. */
  lemma RoleForMeans(row: Team, t: TeamConfig, email: string, groups: set<string>)
    requires GrantsOk(t) && row.emails == EmailMap(Listed(t.members)) && row.groups == GroupMap(Listed(t.ssoGroups))
    ensures var role := RoleFor(row, email, groups);
            && (role == Some(Admin) <==> Grants(t, email, groups, Admin))
            && (role == Some(Contributor) <==> !Grants(t, email, groups, Admin) && Grants(t, email, groups, Contributor))
  {
    EmailMapFinds(Listed(t.members), email);
    forall g | g in groups
      ensures g in row.groups <==> exists h :: h in Listed(t.ssoGroups) && h.to == g
      ensures forall h :: h in Listed(t.ssoGroups) && h.to == g ==> row.groups[g] == h.role
    {
      GrantMapFinds(Listed(t.ssoGroups), g);
    }
    RoleGranted(row, t, email, groups, Admin);
    RoleGranted(row, t, email, groups, Contributor);
  }

  lemma RoleGranted(row: Team, t: TeamConfig, email: string, groups: set<string>, role: Role)
    requires Lower(email) in row.emails <==> exists g :: g in Listed(t.members) && IgnoringCase(g.to, email)
    requires forall g :: g in Listed(t.members) && IgnoringCase(g.to, email) ==> row.emails[Lower(email)] == g.role
    requires forall g :: g in groups ==> (g in row.groups <==> exists h :: h in Listed(t.ssoGroups) && h.to == g)
    requires forall g, h :: g in groups && h in Listed(t.ssoGroups) && h.to == g ==> row.groups[g] == h.role
    ensures role in Matching(row.emails, row.groups, email, groups) <==> Grants(t, email, groups, role)
  {
  }

  // ---- teams ----

  /** The grants a row stores are those of the declaration, addresses in lower case. */
  ghost predicate StoresGrants(row: Team, t: TeamConfig) {
    && (forall email :: Lower(email) in row.emails <==> exists g :: g in Listed(t.members) && IgnoringCase(g.to, email))
    && (forall email, g :: g in Listed(t.members) && IgnoringCase(g.to, email) ==> row.emails[Lower(email)] == g.role)
    && (forall n :: n in row.groups <==> exists g :: g in Listed(t.ssoGroups) && g.to == n)
    && (forall g :: g in Listed(t.ssoGroups) ==> row.groups[g.to] == g.role)
  }

  /** After an application every declared team is live and stores the declared grants, and keeps its id and age
      if it was there. */
  lemma TeamIsAsDeclared(s: State, f: ConfigFile, set_: Settings, d: Draw, t: TeamConfig)
    requires Parsed(f, set_) && t in TeamsOf(f)
    ensures var r := Applied(s, f, set_, d).teams;
            && t.name in r && r[t.name].orphanedAt.None? && StoresGrants(r[t.name], t)
            && (t.name in s.teams ==> r[t.name].id == s.teams[t.name].id && r[t.name].createdAt == s.teams[t.name].createdAt)
            && (t.name !in s.teams ==>
                  r[t.name].createdAt == d.now == r[t.name].updatedAt && (t.name in d.teamId ==> r[t.name].id == d.teamId[t.name]))
  {
    var i :| 0 <= i < |TeamsOf(f)| && TeamsOf(f)[i] == t;
    TeamLeft(s, f, set_, d, i);
    GrantsStored(Applied(s, f, set_, d).teams[t.name], t);
  }

  lemma GrantsStored(row: Team, t: TeamConfig)
    requires GrantsOk(t) && row.emails == EmailMap(Listed(t.members)) && row.groups == GroupMap(Listed(t.ssoGroups))
    ensures StoresGrants(row, t)
  {
    forall email
      ensures Lower(email) in row.emails <==> exists g :: g in Listed(t.members) && IgnoringCase(g.to, email)
      ensures forall g :: g in Listed(t.members) && IgnoringCase(g.to, email) ==> row.emails[Lower(email)] == g.role
    {
      EmailMapFinds(Listed(t.members), email);
    }
    forall n
      ensures n in row.groups <==> exists g :: g in Listed(t.ssoGroups) && g.to == n
      ensures forall g :: g in Listed(t.ssoGroups) && g.to == n ==> row.groups[n] == g.role
    {
      GrantMapFinds(Listed(t.ssoGroups), n);
    }
  }

  /** What is reported for the i-th declared team: an update is a difference in its grants. */
  lemma TeamReport(s: State, f: ConfigFile, set_: Settings, d: Draw, i: nat)
    requires Parsed(f, set_) && i < |TeamsOf(f)|
    ensures var t, actions := TeamsOf(f)[i], DeclaredActions(s, f, set_, d);
            && i < |actions| && actions[i].entity == TeamEntity && actions[i].key == t.name
            && (actions[i].kind == Create <==> t.name !in s.teams)
            && (t.name in s.teams ==>
                  && (actions[i].kind == Restore <==> s.teams[t.name].orphanedAt.Some?)
                  && (actions[i].kind == Unchanged ==> StoresGrants(s.teams[t.name], t))
                  && actions[i].kind in {Restore, Unchanged, Update})
  {
    NotesAt(TeamsAtStart(s, set_), TeamsOf(f), TEAM_KEY, TeamRule(s, d), TeamNote());
    var t := TeamsOf(f)[i];
    assert t in TeamsOf(f);
    if t.name in s.teams && !GrantsDiffer(s.teams[t.name], t) {
      GrantsStored(s.teams[t.name], t);
    }
  }

  // ---- members ----

  predicate IsSync(e: Event) { e.Sync? }

  lemma {:induction false} SignInsKeepGrants(s: State, events: seq<Event>, n: string)
    requires n in s.teams && forall e :: e in events ==> !IsSync(e)
    ensures var r := HappenAll(s, events);
            n in r.teams && r.teams[n].emails == s.teams[n].emails && r.teams[n].groups == s.teams[n].groups
            && r.teams[n].orphanedAt == s.teams[n].orphanedAt
  {
    if events != [] {
      var pre, e := events[..|events| - 1], events[|events| - 1];
      assert e in events && forall x :: x in pre ==> x in events;
      SignInsKeepGrants(s, pre, n);
    }
  }

  /** Who is what: after a file has been applied, and after any later sign-ups and sign-ins, a reconciled user is an
      Admin of a declared team exactly if some grant declared for it with that role names their address, in any
      case, or one of their groups; a Contributor exactly if only grants with that role do; and no member exactly
      if none does. */
  lemma RoleIsDeclared(s: State, a: Application, events: seq<Event>, t: TeamConfig, u: string)
    requires Parsed(a.file, a.settings) && a.file.teams.Some? && t in a.file.teams.value
    requires forall e :: e in events ==> !IsSync(e)
    requires u in ReconciledAll(Applied(s, a.file, a.settings, a.draw), s.users.Keys, events)
    ensures var r := HappenAll(Applied(s, a.file, a.settings, a.draw), events);
            && t.name in r.teams && u in r.users
            && var email, groups := r.users[u], if u in r.groupsOf then r.groupsOf[u] else {};
               var members := r.teams[t.name].members;
               && (u in members && members[u].role == Admin <==> Grants(t, email, groups, Admin))
               && (u in members && members[u].role == Contributor <==>
                     !Grants(t, email, groups, Admin) && Grants(t, email, groups, Contributor))
               && (u !in members <==> !Grants(t, email, groups, Admin) && !Grants(t, email, groups, Contributor))
  {
    var s0 := Applied(s, a.file, a.settings, a.draw);
    var i :| 0 <= i < |a.file.teams.value| && a.file.teams.value[i] == t;
    TeamLeft(s, a.file, a.settings, a.draw, i);
    SyncIsExact(s, a);
    IncrementalAgrees(s0, s.users.Keys, events);
    SignInsKeepGrants(s0, events, t.name);
    var r := HappenAll(s0, events);
    assert ExactAt(r, t.name, u);
    RoleForMeans(r.teams[t.name], t, r.users[u], GroupsOf(r, u));
  }

  /** A sign-in stores the groups it reports; a member it keeps has been one since the same time as before, and
      one it adds since now. */
  lemma SignInRecords(s: State, user: string, groups: set<string>, at: Time, n: string)
    requires user in s.users && n in s.teams && s.teams[n].orphanedAt.None?
    ensures var r := Happen(s, SignIn(user, groups, at));
            && user in r.groupsOf && r.groupsOf[user] == groups && r.users == s.users
            && (user in r.teams[n].members ==>
                  r.teams[n].members[user].createdAt
                  == if user in s.teams[n].members then s.teams[n].members[user].createdAt else at)
            && (forall v :: v != user ==> (v in r.teams[n].members <==> v in s.teams[n].members)
                                          && (v in s.teams[n].members ==> r.teams[n].members[v] == s.teams[n].members[v]))
  {
  }
}
