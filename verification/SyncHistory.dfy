/** Configuration sync over time (src/adapters/config_sync.rs): what whole sequences of applications, sign-ups
    and sign-ins keep. */
module SyncHistory {
  import opened Text
  import opened Upserts
  import opened ConfigFiles
  import opened ConfigSync

  // ---- identity ----

  datatype Application = Application(file: ConfigFile, settings: Settings, draw: Draw)

  /** The plan is accepted, and no identifier drawn for a new project is taken. */
  ghost predicate Commits(s: State, a: Application) {
    PlanAccepted(a.file, a.settings, SnapshotOf(s)) && FreshDraw(s, a.file, a.draw)
  }

  /** A transaction that fails leaves the database as it was. */
  ghost function Commit(s: State, a: Application): State {
    if Commits(s, a) then Applied(s, a.file, a.settings, a.draw) else s
  }

  ghost function CommitAll(s: State, apps: seq<Application>): State {
    if apps == [] then s else Commit(CommitAll(s, apps[..|apps| - 1]), apps[|apps| - 1])
  }

  /** Nothing of `a` is lost in `b`: same teams, same projects under the same keys, same events. */
  ghost predicate Keeps(a: State, b: State) {
    && (forall n :: n in a.teams ==> n in b.teams && b.teams[n].id == a.teams[n].id)
    && (forall n :: n in a.projects ==> n in b.projects && b.projects[n].keys == a.projects[n].keys)
    && (forall e :: e in a.events ==> e in b.events && b.events[e] == a.events[e])
  }

  lemma ProjectKept(s: State, f: ConfigFile, set_: Settings, d: Draw, n: string)
    requires Parsed(f, set_) && n in s.projects && set_.projectPolicy.Readonly?
    ensures n in ProjectsLeft(s, f, set_, d) && ProjectsLeft(s, f, set_, d)[n].keys == s.projects[n].keys
  {
    if n in Slugs(ProjectsOf(f)) {
      var i := KeyIndex(ProjectsOf(f), PROJECT_KEY, n);
      ProjectLeft(s, f, set_, d, i);
    } else {
      ProjectUntouched(s, f, set_, d, n);
    }
  }

  lemma TeamKept(s: State, f: ConfigFile, set_: Settings, d: Draw, n: string)
    requires Parsed(f, set_) && n in s.teams && set_.teamPolicy.Readonly?
    ensures n in TeamsLeft(s, f, set_, d) && TeamsLeft(s, f, set_, d)[n].id == s.teams[n].id
  {
    if n in TeamNames(TeamsOf(f)) {
      var i := KeyIndex(TeamsOf(f), TEAM_KEY, n);
      TeamLeft(s, f, set_, d, i);
    } else {
      TeamUntouched(s, f, set_, d, n);
    }
  }

  lemma ReadonlyStepKeeps(s: State, f: ConfigFile, set_: Settings, d: Draw)
    requires Parsed(f, set_) && set_.projectPolicy.Readonly? && set_.teamPolicy.Readonly?
    ensures Keeps(s, Applied(s, f, set_, d))
  {
    forall n | n in s.teams
      ensures n in TeamsLeft(s, f, set_, d) && TeamsLeft(s, f, set_, d)[n].id == s.teams[n].id
    {
      TeamKept(s, f, set_, d, n);
    }
    forall n | n in s.projects
      ensures n in ProjectsLeft(s, f, set_, d) && ProjectsLeft(s, f, set_, d)[n].keys == s.projects[n].keys
    {
      ProjectKept(s, f, set_, d, n);
    }
  }

  /** Under the readonly policy a project that drops out of the file and later returns is the same project:
      over any history its id, short id and DSN key stay, and no team or event is lost. */
  lemma {:induction false} ReadonlyKeepsIdentity(s: State, apps: seq<Application>)
    requires forall a :: a in apps ==>
               Parsed(a.file, a.settings) && a.settings.projectPolicy.Readonly? && a.settings.teamPolicy.Readonly?
    ensures Keeps(s, CommitAll(s, apps))
  {
    if apps != [] {
      var pre, a := apps[..|apps| - 1], apps[|apps| - 1];
      assert a in apps && forall b :: b in pre ==> b in apps;
      ReadonlyKeepsIdentity(s, pre);
      ReadonlyStepKeeps(CommitAll(s, pre), a.file, a.settings, a.draw);
    }
  }

  /** New projects get keys of their own: ids, short ids and DSN keys stay unique over any history. */
  lemma {:induction false} KeysStayUnique(s: State, apps: seq<Application>)
    requires UniqueKeys(s.projects) && forall a :: a in apps ==> Parsed(a.file, a.settings)
    ensures UniqueKeys(CommitAll(s, apps).projects)
  {
    if apps != [] {
      var pre, a := apps[..|apps| - 1], apps[|apps| - 1];
      assert a in apps && forall b :: b in pre ==> b in apps;
      KeysStayUnique(s, pre);
      if Commits(CommitAll(s, pre), a) {
        FreshKeepsUnique(CommitAll(s, pre), a.file, a.settings, a.draw);
      }
    }
  }

  lemma FreshKeepsUnique(s: State, f: ConfigFile, set_: Settings, d: Draw)
    requires Parsed(f, set_) && UniqueKeys(s.projects) && FreshDraw(s, f, d)
    ensures UniqueKeys(Applied(s, f, set_, d).projects)
  {
    SyncedKeysUnique(s, f, set_, d);
    var synced, left := ProjectsSynced(s, f, set_, d), ProjectsLeft(s, f, set_, d);
    assert forall n :: n in left ==> n in synced && left[n].keys == synced[n].keys;
  }

  lemma SyncedKeysUnique(s: State, f: ConfigFile, set_: Settings, d: Draw)
    requires Parsed(f, set_) && UniqueKeys(s.projects) && FreshDraw(s, f, d)
    ensures UniqueKeys(ProjectsSynced(s, f, set_, d))
  {
    var r := ProjectsSynced(s, f, set_, d);
    UpsertedKeys(ProjectsAtStart(s, set_), ProjectsOf(f), d);
    forall m, n | m in r && n in r && m != n
      ensures Apart(r[m].keys, r[n].keys)
    {
      NewKeysApart(s, f, d, m, n);
    }
  }

  lemma NewKeysApart(s: State, f: ConfigFile, d: Draw, m: string, n: string)
    requires UniqueKeys(s.projects) && FreshDraw(s, f, d) && m != n
    requires m in s.projects.Keys + Slugs(ProjectsOf(f)) && n in s.projects.Keys + Slugs(ProjectsOf(f))
    ensures Apart(KeysAfter(s.projects, d, m), KeysAfter(s.projects, d, n))
  {
    var ps := ProjectsOf(f);
    if m !in s.projects {
      var i := KeyIndex(ps, PROJECT_KEY, m);
      assert FreshAt(s.projects, ps, d, i);
    }
    if n !in s.projects {
      var j := KeyIndex(ps, PROJECT_KEY, n);
      assert FreshAt(s.projects, ps, d, j);
    }
  }

  // ---- deletion ----

  /** A project goes exactly when projects are declared, it is not among them, and the policy deletes; one
      that stays keeps its id, short id and DSN key. */
  lemma DeletesExactly(s: State, f: ConfigFile, set_: Settings, d: Draw, slug: string)
    requires Parsed(f, set_) && slug in s.projects
    ensures var r := Applied(s, f, set_, d);
            && (slug !in r.projects <==> f.projects.Some? && set_.projectPolicy.Delete? && slug !in Slugs(f.projects.value))
            && (slug in r.projects ==> r.projects[slug].keys == s.projects[slug].keys)
  {
    if slug in Slugs(ProjectsOf(f)) {
      var i := KeyIndex(ProjectsOf(f), PROJECT_KEY, slug);
      ProjectLeft(s, f, set_, d, i);
    } else {
      ProjectUntouched(s, f, set_, d, slug);
    }
  }

  /** With deleted projects go all and only their events: an event stays exactly when no project it belongs
      to is deleted, and none changes or appears. */
  lemma EventsGoExactly(s: State, f: ConfigFile, set_: Settings, d: Draw, e: string)
    requires Parsed(f, set_)
    ensures var r := Applied(s, f, set_, d);
            && (e in r.events <==>
                  e in s.events
                  && forall n :: n in s.projects && s.projects[n].keys.id == s.events[e] ==> n in r.projects)
            && (e in r.events ==> r.events[e] == s.events[e])
  {
    var declared, synced := Slugs(ProjectsOf(f)), ProjectsSynced(s, f, set_, d);
    ProjectKeys(s, f, set_, d);
    forall n | n in s.projects
      ensures n in Applied(s, f, set_, d).projects <==> !(f.projects.Some? && set_.projectPolicy.Delete? && n !in declared)
      ensures n !in declared ==> n in synced && synced[n].keys == s.projects[n].keys
    {
      DeletesExactly(s, f, set_, d, n);
      if n !in declared {
        ProjectUntouched(s, f, set_, d, n);
      }
    }
  }

  /** Keys are unique, so the events of a project share its fate. */
  lemma EventsFollowProject(s: State, f: ConfigFile, set_: Settings, d: Draw, slug: string, e: string)
    requires Parsed(f, set_) && UniqueKeys(s.projects)
    requires slug in s.projects && e in s.events && s.events[e] == s.projects[slug].keys.id
    ensures e in Applied(s, f, set_, d).events <==> slug in Applied(s, f, set_, d).projects
  {
    EventsGoExactly(s, f, set_, d, e);
  }

  // ---- membership ----

  datatype Event =
    | SignUp(user: string, email: string)
    | SignIn(user: string, groups: set<string>, at: Time)
    | Sync(app: Application)

  /** `reconcile_user`: replace the user's groups, then reconcile every team that is not orphaned. */
  function ReconcileUser(s: State, user: string, groups: set<string>, now: Time): State
    requires user in s.users
  {
    s.(groupsOf := s.groupsOf[user := groups],
       teams := map n | n in s.teams ::
         if s.teams[n].orphanedAt.Some? then s.teams[n]
         else ReconcileMember(s.teams[n], user, s.users[user], groups, now))
  }

  /** Unknown users cannot sign in; an address is registered once; a refused file changes nothing. */
  ghost function Happen(s: State, e: Event): State {
    match e
    case SignUp(user, email) => if user in s.users then s else s.(users := s.users[user := email])
    case SignIn(user, groups, at) => if user in s.users then ReconcileUser(s, user, groups, at) else s
    case Sync(app) => Commit(s, app)
  }

  /** The users whose membership has been computed: all of them at a sync, one at a sign-in. */
  ghost function Reconciled(s: State, known: set<string>, e: Event): set<string> {
    match e
    case SignUp(user, email) => known
    case SignIn(user, groups, at) => if user in s.users then known + {user} else known
    case Sync(app) => if Commits(s, app) then s.users.Keys else known
  }

  function MemberRole(t: Team, user: string): Option<Role> {
    if user in t.members then Some(t.members[user].role) else None
  }

  /** Full recomputation: the highest role any matching grant gives, absent if none. */
  ghost predicate Exact(s: State, known: set<string>) {
    known <= s.users.Keys
    && forall n, u :: n in s.teams && s.teams[n].orphanedAt.None? && u in known ==> ExactAt(s, n, u)
  }

  ghost predicate ExactAt(s: State, n: string, u: string)
    requires n in s.teams && u in s.users
  {
    MemberRole(s.teams[n], u) == RoleFor(s.teams[n], s.users[u], GroupsOf(s, u))
  }

  /** YAML mode: teams come from the file. */
  predicate YamlSync(e: Event) { e.Sync? ==> Parsed(e.app.file, e.app.settings) && e.app.file.teams.Some? }

  lemma SyncIsExact(s: State, a: Application)
    requires Parsed(a.file, a.settings) && a.file.teams.Some?
    ensures Exact(Applied(s, a.file, a.settings, a.draw), s.users.Keys)
  {
    var r := Applied(s, a.file, a.settings, a.draw);
    forall n, u | n in r.teams && r.teams[n].orphanedAt.None? && u in s.users
      ensures ExactAt(r, n, u)
    {
      LiveIsDeclared(s, a.file, a.settings, a.draw, n);
      var i := KeyIndex(a.file.teams.value, TEAM_KEY, n);
      TeamLeft(s, a.file, a.settings, a.draw, i);
      TeamAfterIsExact(Row(s.teams, n), a.file.teams.value[i], s, a.draw, u);
    }
  }

  lemma TeamAfterIsExact(row: Option<Team>, t: TeamConfig, s: State, d: Draw, u: string)
    requires u in s.users
    ensures var r := TeamAfter(row, t, s, d);
            MemberRole(r, u) == RoleFor(r, s.users[u], GroupsOf(s, u))
  {
  }

  lemma SignInIsExact(s: State, known: set<string>, user: string, groups: set<string>, at: Time)
    requires Exact(s, known) && user in s.users
    ensures Exact(ReconcileUser(s, user, groups, at), known + {user})
  {
    var r := ReconcileUser(s, user, groups, at);
    forall n, u | n in r.teams && r.teams[n].orphanedAt.None? && u in known + {user}
      ensures ExactAt(r, n, u)
    {
      if u != user {
        assert ExactAt(s, n, u);
      }
    }
  }

  ghost function HappenAll(s: State, events: seq<Event>): State {
    if events == [] then s else Happen(HappenAll(s, events[..|events| - 1]), events[|events| - 1])
  }

  ghost function ReconciledAll(s: State, known: set<string>, events: seq<Event>): set<string> {
    if events == [] then known
    else
      var pre := events[..|events| - 1];
      Reconciled(HappenAll(s, pre), ReconciledAll(s, known, pre), events[|events| - 1])
  }

  /** Reconciling users one sign-in at a time always agrees with recomputing everything: over any history in
      YAML mode, every reconciled user's role in every live team is the maximum of the matching grants. */
  lemma {:induction false} IncrementalAgrees(s: State, known: set<string>, events: seq<Event>)
    requires Exact(s, known) && forall e :: e in events ==> YamlSync(e)
    ensures Exact(HappenAll(s, events), ReconciledAll(s, known, events))
  {
    if events != [] {
      var pre, e := events[..|events| - 1], events[|events| - 1];
      assert e in events && forall x :: x in pre ==> x in events;
      IncrementalAgrees(s, known, pre);
      var m, k := HappenAll(s, pre), ReconciledAll(s, known, pre);
      match e {
        case SignUp(user, email) =>
          assert forall n, u :: n in m.teams && m.teams[n].orphanedAt.None? && u in k ==> ExactAt(m, n, u);
          var r := Happen(m, e);
          assert forall n, u :: n in m.teams && u in k ==> ExactAt(m, n, u) == ExactAt(r, n, u);
        case SignIn(user, groups, at) =>
          if user in m.users {
            SignInIsExact(m, k, user, groups, at);
          }
        case Sync(app) =>
          if Commits(m, app) {
            SyncIsExact(m, app);
          }
      }
    }
  }

  /** The membership of a team is frozen for as long as the team is orphaned. */
  lemma OrphansAreFrozen(s: State, e: Event, n: string)
    requires e.Sync? ==> Parsed(e.app.file, e.app.settings)
    requires n in s.teams && s.teams[n].orphanedAt.Some?
    requires n in Happen(s, e).teams && Happen(s, e).teams[n].orphanedAt.Some?
    ensures Happen(s, e).teams[n].members == s.teams[n].members
  {
    if e.Sync? && Commits(s, e.app) {
      var f, set_, d := e.app.file, e.app.settings, e.app.draw;
      if n in TeamNames(TeamsOf(f)) {
        var i := KeyIndex(TeamsOf(f), TEAM_KEY, n);
        TeamLeft(s, f, set_, d, i);
      } else {
        TeamUntouched(s, f, set_, d, n);
      }
    }
  }

  ghost predicate OrphanedThroughout(s: State, events: seq<Event>, n: string) {
    n in HappenAll(s, events).teams && HappenAll(s, events).teams[n].orphanedAt.Some?
    && (events != [] ==> OrphanedThroughout(s, events[..|events| - 1], n))
  }

  lemma {:induction false} FrozenWhileOrphaned(s: State, events: seq<Event>, n: string)
    requires forall e :: e in events && e.Sync? ==> Parsed(e.app.file, e.app.settings)
    requires n in s.teams && OrphanedThroughout(s, events, n)
    ensures HappenAll(s, events).teams[n].members == s.teams[n].members
  {
    if events != [] {
      var pre, e := events[..|events| - 1], events[|events| - 1];
      assert e in events && forall x :: x in pre ==> x in events;
      FrozenWhileOrphaned(s, pre, n);
      OrphansAreFrozen(HappenAll(s, pre), e, n);
    }
  }
}
