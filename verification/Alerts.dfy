/** Alertmanager configuration, its validation, and the rendering of an alert
    (src/domain/notifications.rs, src/alertmanager.rs). */
module Alerts {
  import opened Text
  import opened Templates

  type Labels = map<string, string>

  /** Timestamps count nanoseconds. */
  type Time = int

  const SECOND: int := 1_000_000_000

  const ALERT_TTL: int := 300

  datatype Config = Config(enabled: bool, url: string, labels: Labels, annotations: Labels)

  datatype Alert = Alert(labels: Labels, annotations: Labels, startsAt: Time, endsAt: Time, generatorUrl: string)

  datatype AlertError = BadTemplate | MissingField | BlankAlertname

  datatype Severity = Critical | Warning | Info

  datatype Names = Names(critical: string, warning: string, info: string, projectTest: string)

  function NameFor(names: Names, s: Severity): string {
    match s
    case Critical => names.critical
    case Warning => names.warning
    case Info => names.info
  }

  function SeverityText(s: Severity): string {
    match s
    case Critical => "critical"
    case Warning => "warning"
    case Info => "info"
  }

  function SampleValue(key: string): string {
    match key
    case "project_name" => "Example project"
    case "project_slug" => "example"
    case "project_id" => "00000000-0000-0000-0000-000000000001"
    case "team_id" => "00000000-0000-0000-0000-000000000002"
    case "issue_id" => "00000000-0000-0000-0000-000000000003"
    case "issue_short_id" => "iss001"
    case "title" => "ValueError: example error"
    case "culprit" => "app.checkout"
    case "level" => "error"
    case "environment" => "production"
    case "release" => "1.0.0"
    case "event_count" => "42"
    case "first_seen" => "2026-01-01T12:00:00Z"
    case "last_seen" => "2026-01-01T12:00:00Z"
    case "issue_url" => "https://errors.example.com/projects/web001/issues/iss001"
    case "org_name" => "soika"
    case "trigger" => "new_issue"
    case _ => ""
  }

  function SampleVariables(): (vars: map<string, string>)
    ensures Covers(VARIABLES, vars)
  {
    map v | v in VARIABLES :: SampleValue(v)
  }

  // ---- validation ----

  predicate NameStart(c: char) { IsAlpha(c) || c == '_' }

  predicate NameRest(c: char) { IsAlnum(c) || c == '_' }

  predicate ValidName(key: string) {
    key != [] && NameStart(key[0]) && (forall i :: 1 <= i < |key| ==> NameRest(key[i])) && Utf8Len(key) <= 128
  }

  predicate ValidEntry(key: string, value: string) {
    ValidName(key) && Utf8Len(value) <= 8192 && RenderTemplate(value, SampleVariables()).Ok?
  }

  predicate ValidEntries(m: Labels) { |m| <= 64 && forall k :: k in m ==> ValidEntry(k, m[k]) }

  /** What `validate` accepts; `urlOk` stands for the URL parser's verdict on a non-empty or required URL. */
  predicate Accepted(c: Config, urlOk: bool) {
    (c.enabled || c.url != [] ==> urlOk) && ValidEntries(c.labels) && ValidEntries(c.annotations)
    && "issue_id" !in c.labels && "project_id" !in c.labels
    && "alertname" in c.labels && !IsBlank(c.labels["alertname"])
  }

  method ValidateEntries(m: Labels) returns (ok: bool)
    ensures ok == ValidEntries(m)
  {
    if |m| > 64 {
      return false;
    }
    var todo := m.Keys;
    while todo != {}
      invariant todo <= m.Keys
      invariant forall k :: k in m && k !in todo ==> ValidEntry(k, m[k])
      decreases todo
    {
      var k :| k in todo;
      if !ValidEntry(k, m[k]) {
        return false;
      }
      todo := todo - {k};
    }
    return true;
  }

  method Validate(c: Config, urlOk: bool) returns (ok: bool)
    ensures ok == Accepted(c, urlOk)
  {
    if (c.enabled || c.url != []) && !urlOk {
      return false;
    }
    var labels := ValidateEntries(c.labels);
    if !labels {
      return false;
    }
    var annotations := ValidateEntries(c.annotations);
    if !annotations {
      return false;
    }
    if "issue_id" in c.labels || "project_id" in c.labels {
      return false;
    }
    return "alertname" in c.labels && !IsBlank(c.labels["alertname"]);
  }

  // ---- rendering ----

  predicate AllRender(m: Labels, vars: map<string, string>) {
    forall k :: k in m ==> RenderTemplate(m[k], vars).Ok?
  }

  function RenderMap(m: Labels, vars: map<string, string>): (r: Labels)
    requires AllRender(m, vars)
  {
    map k | k in m :: RenderTemplate(m[k], vars).value
  }

  function RenderAlert(c: Config, vars: map<string, string>, now: Time): (r: Result<Alert, AlertError>)
    ensures r.Ok? ==> "issue_id" in vars && "issue_id" in r.value.labels && r.value.labels["issue_id"] == vars["issue_id"]
    ensures r.Ok? ==> r.value.startsAt == now && r.value.endsAt == now + ALERT_TTL * SECOND
  {
    if !AllRender(c.labels, vars) then Err(BadTemplate)
    else if "issue_id" !in vars || "project_id" !in vars then Err(MissingField)
    else
      var labels := RenderMap(c.labels, vars)["issue_id" := vars["issue_id"]]["project_id" := vars["project_id"]];
      if "alertname" !in labels || IsBlank(labels["alertname"]) then Err(BlankAlertname)
      else if !AllRender(c.annotations, vars) then Err(BadTemplate)
      else if "issue_url" !in vars then Err(MissingField)
      else Ok(Alert(labels, RenderMap(c.annotations, vars), now, now + ALERT_TTL * SECOND, vars["issue_url"]))
  }

  /** What a rendered alert carries: the ids of the issue and of the project whatever the templates say, every other
      label and every annotation as its template renders, and the link to the issue. */
  lemma RenderedAlertCarries(c: Config, vars: map<string, string>, now: Time)
    requires RenderAlert(c, vars, now).Ok?
    ensures var a := RenderAlert(c, vars, now).value;
            && "issue_id" in vars && "issue_id" in a.labels && a.labels["issue_id"] == vars["issue_id"]
            && "project_id" in vars && "project_id" in a.labels && a.labels["project_id"] == vars["project_id"]
            && "issue_url" in vars && a.generatorUrl == vars["issue_url"]
            && a.startsAt == now && a.endsAt == now + 300 * 1_000_000_000
    ensures var a := RenderAlert(c, vars, now).value;
            && (forall k :: k in c.labels && k != "issue_id" && k != "project_id" ==>
                  k in a.labels && RenderTemplate(c.labels[k], vars) == Ok(a.labels[k]))
            && a.annotations.Keys == c.annotations.Keys
            && forall k :: k in c.annotations ==> RenderTemplate(c.annotations[k], vars) == Ok(a.annotations[k])
  {
  }

  /** The configuration in force for one project: its own labels, then the severity class. */
  function ProjectConfig(c: Config, own: Labels, names: Names, severity: Option<Severity>): Config {
    var labels := c.labels + own;
    c.(labels := if severity.None? then labels
                 else labels["alertname" := NameFor(names, severity.value)]["severity" := SeverityText(severity.value)])
  }

  lemma ValidEntriesRender(m: Labels, vars: map<string, string>)
    requires (forall k :: k in m ==> ValidEntry(k, m[k])) && Covers(VARIABLES, vars)
    ensures AllRender(m, vars)
  {
    forall k | k in m
      ensures RenderTemplate(m[k], vars).Ok?
    {
      assert ValidEntry(k, m[k]);
      ValidityIgnoresValues(m[k], SampleVariables(), vars);
    }
  }

  lemma CoversRequired(vars: map<string, string>)
    requires Covers(VARIABLES, vars)
    ensures "issue_id" in vars && "project_id" in vars && "issue_url" in vars
  {
    assert VARIABLES[4] == "issue_id" && VARIABLES[2] == "project_id" && VARIABLES[14] == "issue_url";
  }

  /** Given every variable, the labels and the rendered alertname decide. */
  lemma AlertnameDecides(c: Config, vars: map<string, string>, now: Time)
    requires Covers(VARIABLES, vars) && AllRender(c.annotations, vars)
    requires "alertname" in c.labels && "issue_id" !in c.labels && "project_id" !in c.labels
    ensures var r := RenderAlert(c, vars, now);
            if !AllRender(c.labels, vars) then r == Err(BadTemplate)
            else if IsBlank(RenderTemplate(c.labels["alertname"], vars).value) then r == Err(BlankAlertname)
            else r.Ok?
  {
    CoversRequired(vars);
  }

  /** Once accepted, a configuration can fail to render for one reason only: the values made its
      alertname blank. */
  lemma AcceptedFailsOnlyBlank(c: Config, urlOk: bool, vars: map<string, string>, now: Time)
    requires Accepted(c, urlOk) && Covers(VARIABLES, vars)
    ensures RenderTemplate(c.labels["alertname"], vars).Ok?
    ensures RenderAlert(c, vars, now).Err? <==> IsBlank(RenderTemplate(c.labels["alertname"], vars).value)
    ensures RenderAlert(c, vars, now).Err? ==> RenderAlert(c, vars, now) == Err(BlankAlertname)
  {
    ValidEntriesRender(c.labels, vars);
    ValidEntriesRender(c.annotations, vars);
    AlertnameDecides(c, vars, now);
  }

  lemma OverriddenLabels(base: Labels, name: string, s: Severity, vars: map<string, string>)
    requires AllRender(base, vars)
    ensures var labels := base["alertname" := name]["severity" := SeverityText(s)];
            AllRender(labels, vars) <==> RenderTemplate(name, vars).Ok?
  {
    PlainRenders(SeverityText(s), vars);
    var labels := base["alertname" := name]["severity" := SeverityText(s)];
    assert labels["alertname"] == name;
    forall k | k in labels && RenderTemplate(name, vars).Ok?
      ensures RenderTemplate(labels[k], vars).Ok?
    {
      assert k == "alertname" || k == "severity" || (k in base && labels[k] == base[k]);
    }
  }

  lemma OverriddenKeys(base: Labels, name: string, sev: string)
    requires "issue_id" !in base && "project_id" !in base
    ensures var labels := base["alertname" := name]["severity" := sev];
            labels["alertname"] == name && "issue_id" !in labels && "project_id" !in labels
  {
    assert "alertname"[0] == 'a' && "severity"[0] == 's' && "issue_id"[0] == 'i' && "project_id"[0] == 'p';
  }

  ghost predicate EntriesValid(m: Labels) { forall k :: k in m ==> ValidEntry(k, m[k]) }

  /** With a severity class the operator's alert name replaces the template, and that name is the only
      thing that can still fail: its own syntax, or a blank rendering. */
  lemma SeverityNameDecides(c: Config, urlOk: bool, own: Labels, names: Names, s: Severity,
                            vars: map<string, string>, now: Time)
    requires Accepted(c, urlOk) && Covers(VARIABLES, vars)
    requires EntriesValid(own) && "issue_id" !in own && "project_id" !in own
    ensures var name := RenderTemplate(NameFor(names, s), vars);
            RenderAlert(ProjectConfig(c, own, names, Some(s)), vars, now).Ok? <==> name.Ok? && !IsBlank(name.value)
  {
    ValidEntriesRender(c.annotations, vars);
    ValidEntriesRender(c.labels, vars);
    ValidEntriesRender(own, vars);
    OverrideDecides(c, own, names, s, vars, now);
  }

  lemma OverrideDecides(c: Config, own: Labels, names: Names, s: Severity, vars: map<string, string>, now: Time)
    requires AllRender(c.labels, vars) && AllRender(c.annotations, vars) && AllRender(own, vars)
    requires Covers(VARIABLES, vars)
    requires "issue_id" !in c.labels && "project_id" !in c.labels && "issue_id" !in own && "project_id" !in own
    ensures var name := RenderTemplate(NameFor(names, s), vars);
            RenderAlert(ProjectConfig(c, own, names, Some(s)), vars, now).Ok? <==> name.Ok? && !IsBlank(name.value)
  {
    var base, name := c.labels + own, NameFor(names, s);
    assert AllRender(base, vars);
    OverriddenLabels(base, name, s, vars);
    OverriddenKeys(base, name, SeverityText(s));
    AlertnameDecides(ProjectConfig(c, own, names, Some(s)), vars, now);
  }

  /** Without a severity class the project's own labels join the accepted ones, and again only a blank
      alertname can fail. */
  lemma OwnLabelsFailOnlyBlank(c: Config, urlOk: bool, own: Labels, names: Names, vars: map<string, string>, now: Time)
    requires Accepted(c, urlOk) && Covers(VARIABLES, vars)
    requires EntriesValid(own) && "issue_id" !in own && "project_id" !in own
    ensures var name := RenderTemplate((c.labels + own)["alertname"], vars);
            var r := RenderAlert(ProjectConfig(c, own, names, None), vars, now);
            name.Ok? && if IsBlank(name.value) then r == Err(BlankAlertname) else r.Ok?
  {
    ValidEntriesRender(c.annotations, vars);
    ValidEntriesRender(c.labels, vars);
    ValidEntriesRender(own, vars);
    MergedDecides(c, own, names, vars, now);
  }

  lemma MergedDecides(c: Config, own: Labels, names: Names, vars: map<string, string>, now: Time)
    requires AllRender(c.labels, vars) && AllRender(c.annotations, vars) && AllRender(own, vars)
    requires Covers(VARIABLES, vars) && "alertname" in c.labels
    requires "issue_id" !in c.labels && "project_id" !in c.labels && "issue_id" !in own && "project_id" !in own
    ensures var name := RenderTemplate((c.labels + own)["alertname"], vars);
            var r := RenderAlert(ProjectConfig(c, own, names, None), vars, now);
            name.Ok? && if IsBlank(name.value) then r == Err(BlankAlertname) else r.Ok?
  {
    assert AllRender(c.labels + own, vars);
    AlertnameDecides(ProjectConfig(c, own, names, None), vars, now);
  }

  predicate Labelled(labels: Labels, vars: map<string, string>, severity: string, name: string) {
    "severity" in labels && labels["severity"] == severity
    && "alertname" in labels && RenderTemplate(name, vars) == Ok(labels["alertname"])
  }

  /** A severity class decides two labels, whatever the templates say. */
  lemma ClassLabels(c: Config, own: Labels, names: Names, s: Severity, vars: map<string, string>, now: Time)
    requires RenderAlert(ProjectConfig(c, own, names, Some(s)), vars, now).Ok?
    ensures Labelled(RenderAlert(ProjectConfig(c, own, names, Some(s)), vars, now).value.labels, vars,
                     SeverityText(s), NameFor(names, s))
  {
    var in_ := ProjectConfig(c, own, names, Some(s));
    PlainRenders(SeverityText(s), vars);
    ClassKeys(c.labels + own, NameFor(names, s), SeverityText(s));
    ClassLabelsOf(in_, NameFor(names, s), SeverityText(s), vars, now);
  }

  lemma ClassLabelsOf(c: Config, name: string, severity: string, vars: map<string, string>, now: Time)
    requires RenderAlert(c, vars, now).Ok? && "alertname" in c.labels && "severity" in c.labels
    requires c.labels["alertname"] == name && c.labels["severity"] == severity && RenderTemplate(severity, vars) == Ok(severity)
    ensures Labelled(RenderAlert(c, vars, now).value.labels, vars, severity, name)
  {
    ClassKeys(map[], name, severity);
    LabelRenders(c, vars, now, "alertname");
    LabelRenders(c, vars, now, "severity");
  }

  lemma LabelRenders(c: Config, vars: map<string, string>, now: Time, k: string)
    requires RenderAlert(c, vars, now).Ok? && k in c.labels && k != "issue_id" && k != "project_id"
    ensures k in RenderAlert(c, vars, now).value.labels
    ensures RenderTemplate(c.labels[k], vars) == Ok(RenderAlert(c, vars, now).value.labels[k])
  {
  }

  lemma ClassKeys(base: Labels, name: string, severity: string)
    ensures var labels := base["alertname" := name]["severity" := severity];
            labels["alertname"] == name && labels["severity"] == severity
    ensures "alertname" != "issue_id" && "alertname" != "project_id" && "severity" != "issue_id" && "severity" != "project_id"
  {
    assert "alertname"[0] == 'a' && "severity"[0] == 's' && "issue_id"[0] == 'i' && "project_id"[0] == 'p';
  }

  lemma PlainRenders(s: string, vars: map<string, string>)
    requires NoSyntax(s)
    ensures RenderTemplate(s, vars) == Ok(s)
  {
  }
}
