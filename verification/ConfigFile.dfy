/** The declarative configuration file after parsing (src/domain/config_file.rs): its entities, the checks
    `parse` has already made, and the plan that is validated against a snapshot of the database. */
module ConfigFiles {
  import opened Text
  import opened Upserts
  import Slug

  datatype Source = Ui | Env | Yaml

  datatype OrphanPolicy = Readonly | Delete

  datatype Settings = Settings(projectSource: Source, teamSource: Source, projectPolicy: OrphanPolicy,
                               teamPolicy: OrphanPolicy)

  datatype Role = Admin | Contributor

  /** A grant to an e-mail address or to an SSO group. */
  datatype Grant = Grant(to: string, role: Role)

  datatype TeamConfig = TeamConfig(name: string, members: Option<seq<Grant>>, ssoGroups: Option<seq<Grant>>)

  datatype ProjectConfig = ProjectConfig(slug: string, name: string, team: string, retentionEvents: Option<int>,
                                         retentionDays: Option<int>, webhookUrl: Option<string>,
                                         interval: Option<int>, severity: Option<string>)

  datatype ConfigFile = ConfigFile(projects: Option<seq<ProjectConfig>>, teams: Option<seq<TeamConfig>>)

  datatype ActionKind = Create | Update | Unchanged | Restore | Orphan | Remove

  datatype Entity = TeamEntity | ProjectEntity

  datatype Action = Action(entity: Entity, key: string, kind: ActionKind)

  function PlanPresent(exists_: bool, orphaned: bool, changed: bool): ActionKind {
    if !exists_ then Create else if orphaned then Restore else if changed then Update else Unchanged
  }

  function Lower(s: string): (r: string)
    ensures |r| == |s|
  {
    seq(|s|, i requires 0 <= i < |s| => ToLower(s[i]))
  }

  function Listed(grants: Option<seq<Grant>>): seq<Grant> { if grants.Some? then grants.value else [] }

  function TeamsOf(f: ConfigFile): seq<TeamConfig> { if f.teams.Some? then f.teams.value else [] }

  function ProjectsOf(f: ConfigFile): seq<ProjectConfig> { if f.projects.Some? then f.projects.value else [] }

  const TEAM_KEY: TeamConfig -> string := (t: TeamConfig) => t.name

  const PROJECT_KEY: ProjectConfig -> string := (p: ProjectConfig) => p.slug

  function TeamNames(ts: seq<TeamConfig>): set<string> { KeySet(ts, TEAM_KEY) }

  function Slugs(ps: seq<ProjectConfig>): set<string> { KeySet(ps, PROJECT_KEY) }

  // ---- what parsing has checked ----

  predicate DistinctEmails(gs: seq<Grant>) {
    forall i, j :: 0 <= i < j < |gs| ==> Lower(gs[i].to) != Lower(gs[j].to)
  }

  predicate DistinctGroups(gs: seq<Grant>) {
    forall i, j :: 0 <= i < j < |gs| ==> gs[i].to != gs[j].to
  }

  predicate GrantsOk(t: TeamConfig) { DistinctEmails(Listed(t.members)) && DistinctGroups(Listed(t.ssoGroups)) }

  predicate IntervalOk(p: ProjectConfig) { p.interval.Some? ==> 10 <= p.interval.value <= 86400 }

  /** The facts about an accepted file that later steps rely on. Sections owned by the UI are dropped. */
  predicate Parsed(f: ConfigFile, s: Settings) {
    && (f.teams.Some? <==> s.teamSource != Ui) && (f.projects.Some? <==> s.projectSource != Ui)
    && Distinct(TeamsOf(f), TEAM_KEY) && Distinct(ProjectsOf(f), PROJECT_KEY)
    && (forall t :: t in TeamsOf(f) ==> GrantsOk(t))
    && (forall p :: p in ProjectsOf(f) ==> IntervalOk(p))
  }

  /** The webhook URL check is the URL parser's; `webhookOk` stands for it. */
  predicate ProjectOk(p: ProjectConfig, webhookOk: string -> bool) {
    Slug.Valid(p.slug) && IntervalOk(p) && !IsBlank(p.name) && !IsBlank(p.team)
    && (p.retentionEvents.Some? ==> p.retentionEvents.value >= 1)
    && (p.retentionDays.Some? ==> p.retentionDays.value >= 0)
    && (p.webhookUrl.Some? ==> webhookOk(p.webhookUrl.value))
  }

  predicate EmailOk(email: string) { '@' in email && forall c :: c in email ==> !IsSpace(c) }

  predicate TeamOk(t: TeamConfig) {
    !IsBlank(t.name) && (t.members.Some? || t.ssoGroups.Some?) && GrantsOk(t)
    && (forall g :: g in Listed(t.members) ==> EmailOk(g.to)) && (forall g :: g in Listed(t.ssoGroups) ==> !IsBlank(g.to))
  }

  /** What `parse` accepts, once the text has been read. */
  predicate FileOk(f: ConfigFile, s: Settings, webhookOk: string -> bool) {
    && (f.teams.Some? <==> s.teamSource != Ui) && (f.projects.Some? <==> s.projectSource != Ui)
    && Distinct(TeamsOf(f), TEAM_KEY) && Distinct(ProjectsOf(f), PROJECT_KEY)
    && (forall t :: t in TeamsOf(f) ==> TeamOk(t)) && (forall p :: p in ProjectsOf(f) ==> ProjectOk(p, webhookOk))
  }

  lemma FileOkIsParsed(f: ConfigFile, s: Settings, webhookOk: string -> bool)
    requires FileOk(f, s, webhookOk)
    ensures Parsed(f, s)
  {
    assert forall t :: t in TeamsOf(f) ==> TeamOk(t) && GrantsOk(t);
    assert forall p :: p in ProjectsOf(f) ==> ProjectOk(p, webhookOk) && IntervalOk(p);
  }

  /** The duplicate check: a key is refused when the growing set already holds it. */
  method Unique<C>(cs: seq<C>, key: C -> string) returns (ok: bool)
    ensures ok == Distinct(cs, key)
  {
    var seen := {};
    for i := 0 to |cs|
      invariant forall n :: n in seen <==> exists j :: 0 <= j < i && key(cs[j]) == n
      invariant forall j, k :: 0 <= j < k < i ==> key(cs[j]) != key(cs[k])
    {
      if key(cs[i]) in seen {
        return false;
      }
      seen := seen + {key(cs[i])};
    }
    return true;
  }

  method ValidateGrants(t: TeamConfig) returns (ok: bool)
    ensures ok <==> (t.members.Some? || t.ssoGroups.Some?) && GrantsOk(t)
                    && (forall g :: g in Listed(t.members) ==> EmailOk(g.to))
                    && (forall g :: g in Listed(t.ssoGroups) ==> !IsBlank(g.to))
  {
    if t.members.None? && t.ssoGroups.None? {
      return false;
    }
    var emails := Unique(Listed(t.members), (g: Grant) => Lower(g.to));
    var groups := Unique(Listed(t.ssoGroups), (g: Grant) => g.to);
    return emails && groups && (forall g :: g in Listed(t.members) ==> EmailOk(g.to))
        && (forall g :: g in Listed(t.ssoGroups) ==> !IsBlank(g.to));
  }

  method ValidateFile(f: ConfigFile, s: Settings, webhookOk: string -> bool) returns (ok: bool)
    ensures ok == FileOk(f, s, webhookOk) && (ok ==> Parsed(f, s))
  {
    if f.teams.Some? != (s.teamSource != Ui) || f.projects.Some? != (s.projectSource != Ui) {
      return false;
    }
    var slugs := Unique(ProjectsOf(f), PROJECT_KEY);
    if !slugs || exists p :: p in ProjectsOf(f) && !ProjectOk(p, webhookOk) {
      return false;
    }
    var names := Unique(TeamsOf(f), TEAM_KEY);
    if !names {
      return false;
    }
    var ts := TeamsOf(f);
    for i := 0 to |ts|
      invariant forall j :: 0 <= j < i ==> TeamOk(ts[j])
    {
      var grants := ValidateGrants(ts[i]);
      if IsBlank(ts[i].name) || !grants {
        assert ts[i] in ts;
        return false;
      }
    }
    FileOkIsParsed(f, s, webhookOk);
    return true;
  }

  // ---- the plan ----

  /** A snapshot: the team names, and the owning team of each project. */
  datatype Snapshot = Snapshot(teams: set<string>, owners: map<string, string>)

  function KnownTeams(f: ConfigFile, snap: Snapshot): set<string> {
    if f.teams.Some? then TeamNames(f.teams.value) else snap.teams
  }

  predicate ReferencesOk(f: ConfigFile, snap: Snapshot) {
    forall p :: p in ProjectsOf(f) ==> p.team in KnownTeams(f, snap)
  }

  function FindProject(ps: seq<ProjectConfig>, slug: string): (r: Option<ProjectConfig>)
    ensures r.Some? <==> slug in Slugs(ps)
    ensures r.Some? ==> r.value in ps && r.value.slug == slug
  {
    if ps == [] then None
    else if ps[0].slug == slug then assert PROJECT_KEY(ps[0]) == slug; Some(ps[0])
    else
      assert forall i :: 0 <= i < |ps| - 1 ==> PROJECT_KEY(ps[1..][i]) == PROJECT_KEY(ps[i + 1]);
      FindProject(ps[1..], slug)
  }

  /** The owner a project will have once the plan is carried out, if it still exists. */
  function FinalProjectTeam(f: ConfigFile, s: Settings, slug: string, current: string): Option<string> {
    if f.projects.None? then Some(current)
    else
      var declared := FindProject(f.projects.value, slug);
      if declared.Some? then Some(declared.value.team)
      else if s.projectPolicy.Delete? then None
      else Some(current)
  }

  /** The plan leaves `slug` with a team that it deletes. */
  predicate Kept(f: ConfigFile, s: Settings, snap: Snapshot, slug: string)
    requires f.teams.Some? && slug in snap.owners
  {
    var final := FinalProjectTeam(f, s, slug, snap.owners[slug]);
    final.Some? && final.value in snap.teams && final.value !in TeamNames(f.teams.value)
  }

  /** Some team that the plan deletes would still own a project. */
  ghost predicate StillOwned(f: ConfigFile, s: Settings, snap: Snapshot) {
    f.teams.Some? && s.teamPolicy.Delete? && exists slug :: slug in snap.owners && Kept(f, s, snap, slug)
  }

  ghost predicate PlanAccepted(f: ConfigFile, s: Settings, snap: Snapshot) {
    ReferencesOk(f, snap) && !StillOwned(f, s, snap)
  }

  datatype PlanError = UnknownTeam(slug: string, team: string) | Owns(team: string, slug: string)

  /** Every problem of the plan is reported, and nothing else; no problem means it is accepted. */
  method ValidatePlan(f: ConfigFile, s: Settings, snap: Snapshot) returns (errors: set<PlanError>)
    ensures forall slug, team ::
              UnknownTeam(slug, team) in errors <==>
              exists p :: p in ProjectsOf(f) && p.slug == slug && p.team == team && team !in KnownTeams(f, snap)
    ensures forall team, slug ::
              Owns(team, slug) in errors <==>
              f.teams.Some? && s.teamPolicy.Delete? && slug in snap.owners && StaysWith(f, s, snap, slug, team)
    ensures errors == {} <==> PlanAccepted(f, s, snap)
  {
    var unknown := CheckReferences(f, snap);
    errors := unknown;
    if f.teams.Some? && s.teamPolicy.Delete? {
      var todo := snap.owners.Keys;
      var owns: set<PlanError> := {};
      while todo != {}
        invariant todo <= snap.owners.Keys
        invariant forall e :: e in owns ==> e.Owns?
        invariant forall team, slug ::
                    Owns(team, slug) in owns <==> slug in snap.owners && slug !in todo && StaysWith(f, s, snap, slug, team)
        decreases todo
      {
        var slug :| slug in todo;
        var final := FinalProjectTeam(f, s, slug, snap.owners[slug]);
        if final.Some? && final.value in snap.teams && final.value !in TeamNames(f.teams.value) {
          owns := owns + {Owns(final.value, slug)};
        }
        todo := todo - {slug};
      }
      errors := unknown + owns;
      NoneStays(f, s, snap, owns);
    }
  }

  lemma NoneStays(f: ConfigFile, s: Settings, snap: Snapshot, owns: set<PlanError>)
    requires f.teams.Some? && s.teamPolicy.Delete? && forall e :: e in owns ==> e.Owns?
    requires forall team, slug ::
               Owns(team, slug) in owns <==> slug in snap.owners && StaysWith(f, s, snap, slug, team)
    ensures owns == {} <==> !StillOwned(f, s, snap)
  {
    if StillOwned(f, s, snap) {
      var slug :| slug in snap.owners && Kept(f, s, snap, slug);
      assert Owns(FinalProjectTeam(f, s, slug, snap.owners[slug]).value, slug) in owns;
    }
    if owns != {} {
      var e :| e in owns;
      assert StaysWith(f, s, snap, e.slug, e.team);
    }
  }

  predicate StaysWith(f: ConfigFile, s: Settings, snap: Snapshot, slug: string, team: string)
    requires f.teams.Some? && slug in snap.owners
  {
    Kept(f, s, snap, slug) && FinalProjectTeam(f, s, slug, snap.owners[slug]) == Some(team)
  }

  method CheckReferences(f: ConfigFile, snap: Snapshot) returns (errors: set<PlanError>)
    ensures forall e :: e in errors ==> e.UnknownTeam?
    ensures forall slug, team ::
              UnknownTeam(slug, team) in errors <==>
              exists p :: p in ProjectsOf(f) && p.slug == slug && p.team == team && team !in KnownTeams(f, snap)
    ensures errors == {} <==> ReferencesOk(f, snap)
  {
    var ps, names := ProjectsOf(f), KnownTeams(f, snap);
    errors := {};
    for i := 0 to |ps|
      invariant forall e :: e in errors ==> e.UnknownTeam?
      invariant forall e :: e in errors ==> exists p :: p in ps && UnknownTeam(p.slug, p.team) == e && p.team !in names
      invariant forall j :: 0 <= j < i && ps[j].team !in names ==> UnknownTeam(ps[j].slug, ps[j].team) in errors
    {
      if ps[i].team !in names {
        assert ps[i] in ps;
        errors := errors + {UnknownTeam(ps[i].slug, ps[i].team)};
      }
    }
    forall slug, team | exists p :: p in ps && p.slug == slug && p.team == team && team !in names
      ensures UnknownTeam(slug, team) in errors
    {
      var p :| p in ps && p.slug == slug && p.team == team && team !in names;
      var j :| 0 <= j < |ps| && ps[j] == p;
    }
  }

  // ---- roles ----

  /** Admin wins over Contributor; no source, no role. */
  function MaxRole(roles: set<Role>): Option<Role> {
    if Admin in roles then Some(Admin) else if Contributor in roles then Some(Contributor) else None
  }

  /** The scan stops at the first Admin; the order of the rows does not matter. */
  method ReconcileMemberships(roles: seq<Role>) returns (r: Option<Role>)
    ensures r == MaxRole(set x | x in roles)
    ensures (r == Some(Admin) <==> Admin in roles) && (r == None <==> roles == [])
  {
    r := None;
    for i := 0 to |roles|
      invariant Admin !in roles[..i] && r == MaxRole(set x | x in roles[..i]) && (r == None <==> i == 0)
    {
      assert roles[..i + 1] == roles[..i] + [roles[i]];
      if roles[i].Admin? {
        assert roles[i] in roles;
        return Some(Admin);
      }
      r := Some(roles[i]);
    }
    assert roles[..|roles|] == roles;
  }
}
