# soika: a verified model of its state machines and string algorithms

soika is a Sentry-compatible error tracker. This project models, in Dafny, the parts of it that hold real state
machines, planners and string algorithms, and proves what they are for. `dafny verify dfyconfig.toml` checks
everything.

| file | models |
|---|---|
| `AlertProtocol.dfy`, `AlertLease.dfy`, `AlertSilence.dfy` | the Alertmanager lifecycle as a step relation with failures and crashes; safety, leases and silent alerts over all runs |
| `Alertmanager.dfy`, `IdOrder.dfy` | `notify`, `resolve`, `reconcile` and the paginated sweep over a mutable store; each call is a run of the step relation |
| `Alerts.dfy`, `Templates.dfy` | configuration checks, alert rendering, the template scanner and its grammar |
| `ConfigFile.dfy`, `Upsert.dfy`, `ConfigSync.dfy` | the declarative file, the plan, and what one application does to each table |
| `ConfigDatabase.dfy`, `SyncHistory.dfy`, `DeclaredState.dfy` | the transaction as sequential table updates; whole histories of applications, sign-ups and sign-ins; what a file means for rows, reports and members |
| `LoginGuard.dfy`, `LoginEscalation.dfy` | login lockout; what whole runs of failures cost |
| `Normalize.dfy`, `MessageTokens.dfy`, `Fnv.dfy`, `Grouping.dfy` | message masking and its meaning token by token, FNV-1a, fingerprints |
| `Slug.dfy`, `Retry.dfy` | slugs, retry with backoff |
| `Text.dfy`, `Arithmetic.dfy` | shared text functions, powers of two and integer limits |

Conventions. Strings are sequences of Unicode scalar values; where the program counts bytes the model does too. Time is
counted in nanoseconds (milliseconds for database backoff). Random identifiers, the jitter draw and the verdict of the
URL parser are parameters; the outcome of every HTTP send and store write is the environment's choice. A send or write
is acknowledged, carried out but reported as failed, or refused. Tables are maps keyed by their unique column, with the
rows that a foreign key deletes along with their owner kept inside the owner.

Four findings, each stated with the exact condition under which the property holds:

* `lockout_duration` follows its documented formula at every level if and only if the maximum is at most 2^31 base
  lockouts (`LoginGuards.DocumentedExactly`); beyond that the 32-bit factor departs from it at level 32.
* Distinct custom fingerprint lists can share their hashed material, although the comment in the source says component
  boundaries never collide. Two events hash the same material if and only if their lists, with the default placeholder
  expanded, break into the same pieces at U+001F (`Grouping.MaterialsCollideExactly`). So lists without that character
  are told apart if they name no placeholder, and up to its expansion if the default material is free of it too
  (`Grouping.SeparableListsDiffer`). An exception type that holds it makes `["{{ default }}"]` collide with a list of
  two plain components (`Grouping.TypeCollision`), and every list of two or more components collides with the one
  component that spells it out (`Grouping.LongListsCollide`).
* An alert can fall silent while its record says "delivered" and its lease has time left: a notification, a pass over
  an issue that is no longer live, or a pass after a label or destination edit closes the alert, the write that should
  follow is lost, and the next pass finds nothing due (`AlertSilence.LostWriteSilences`). Over every run such an alert
  fires if and only if no resolution of it has taken effect since its record was last written
  (`AlertSilence.SilentExactly`).
* The overflow entry of the login guard can trip again while it is locked, although every failure followed an allowed
  check (`LoginEscalation.OverflowTripsWhileLocked`). Over every such run it does so if and only if the limit is one
  attempt (the default is five) and some failure is displaced, that is, made by an account whose own idle entry is
  pruned without making room while the overflow entry is locked (`LoginEscalation.TripsWhileLockedExactly`). With two
  or more attempts a displaced failure is only counted, at most one in the life of an overflow entry
  (`LoginEscalation.SpentIsPolite`), and the entry escalates like any other. Entries of accounts are never charged
  while locked.

## Model

| member | source | states |
|---|---|---|
| `AlertProtocol.StepPreserves` | src/alertmanager.rs:145-329 | every step of `notify` and `reconcile`, acknowledged, lost or refused, and a crash at any point, keeps the invariant: well-formed records, no untracked firing alert, and what the holder of the mutex relies on next |
| `AlertProtocol.NeverUntracked` | src/alertmanager.rs:145-329 | in every state of every run each issue identity still firing at the receiver is the identity of the stored record of its `issue_id` |
| `AlertProtocol.RunsFromInit` | src/alertmanager.rs:196-203 | the same from an empty store: saving before sending and closing before replacing leave no orphaned alert behind |
| `AlertProtocol.AtMostOneFires` | src/alertmanager.rs:197-203 | an issue never has two alerts firing at once, and one without a record has none |
| `AlertProtocol.TestSendersAreDisjoint` | src/alertmanager.rs:336-444 | neither test sender can post under an identity that belongs to an issue |
| `AlertProtocol.EndpointMeans` | src/alertmanager.rs:68-70 | the endpoint is the configured URL without trailing slashes, followed by the path of the receiver's API |
| `AlertLease.LeaseNeverLapses` | src/alertmanager.rs:292-333 | a live alert fires in every state of every run, with arbitrary failed sends, failed writes and crashes in between and with the interval edited on every pass, if twice the time from one successful reconciliation to the next, plus the time to record a delivery, is at most five minutes |
| `AlertLease.LeaseAtCadence` | src/scheduler.rs:46-54 | in particular if reconciliation succeeds every 100 seconds, however long deliveries take; the scheduler starts a pass every ten |
| `AlertLease.DeliveryIsAlive` | src/alertmanager.rs:319-329 | a recorded delivery establishes what the lease theorem starts from |
| `AlertLease.LapsesBeyond` | src/alertmanager.rs:303-313 | the five minutes are sharp: two nanoseconds beyond them, for every interval of 100 to 149 seconds, a run of successful passes in which the alert lapses |
| `AlertLease.TtlMargin` | src/alertmanager.rs:331-333 | the lease outlives its interval by at least 200 seconds, and by exactly 200 only at an interval of 100 |
| `AlertLease.StaysCovered` | src/alertmanager.rs:292-329 | with a fixed interval, every step of every run keeps the receiver's end at least 200 seconds, less the gap between passes and the time a delivery takes, after the start of the first failed attempt, or of the latest possible next one |
| `AlertLease.LapseNeedsLongOutage` | src/alertmanager.rs:306-333 | in every run with a fixed interval of any length, an alert that no longer fires has seen only failed attempts for at least 200 seconds, less a gap and a delivery (190 for passes ten seconds apart and instant deliveries), and as many of them as that time holds gaps |
| `AlertLease.DeliveryIsCovered` | src/alertmanager.rs:319-329 | a recorded delivery establishes what the outage theorem starts from |
| `AlertSilence.SilentExactly` | src/alertmanager.rs:145-329 | in every state of every run, a record marked delivered with time left on its lease fires if and only if no resolution of it has taken effect since the record was last written |
| `AlertSilence.StepKeepsKnown` | src/alertmanager.rs:145-329 | every step keeps what the receiver holds for each delivered record: its end, or a past one once closed |
| `AlertSilence.NoSilenceUninterrupted` | src/alertmanager.rs:196-206 | between calls no such record is silent in a run where no resolution loses its reply and no write after one fails or is cut off, whatever else fails |
| `AlertSilence.LostWriteSilences` | src/alertmanager.rs:196-329 | for every delivered alert and every step that closes it, a run (resolution sent, write lost, old labels again) after which the record is unchanged, nothing is due and nothing fires |
| `AlertSilence.ClosesExactly` | src/alertmanager.rs:197-329 | only a notification for the issue, a pass that finds it not live and a pass that finds its labels or destination changed close a recorded alert |
| `AlertSilence.DueSendsAgain` | src/alertmanager.rs:303-317 | a pass leaves a silence as it is if and only if nothing is due, and from one interval after the recorded delivery every pass sets out to send again |
| `AlertSilence.AcknowledgedPassRevives` | src/alertmanager.rs:303-329 | a pass that is due and acknowledged throughout leaves the alert firing and its record true, for as long as its new lease |
| `Alertmanager.VariablesCover` | src/alertmanager.rs:72-112 | every documented template variable is supplied for every issue |
| `Alertmanager.ProjectVariables` | src/alertmanager.rs:72-112 | the project and organisation variables are those of the project |
| `Alertmanager.IssueVariables` | src/alertmanager.rs:72-112 | the issue variables are those of the issue |
| `Alertmanager.DetailVariables` | src/alertmanager.rs:72-112 | a missing culprit, environment or release reads as nothing and a missing level as `error` |
| `Alertmanager.TimesAndLink` | src/alertmanager.rs:72-112 | times as given, and the link to the issue's page |
| `Alertmanager.SeverityLabels` | src/alertmanager.rs:32-52 | the project's severity class, or else the default, gives the severity label and the operator's alert name for that class |
| `Alertmanager.LabelPrecedence` | src/alertmanager.rs:32-52 | without a class a project's own label template goes before the channel's |
| `Alertmanager.RenderForFailsOnlyOnName` | src/alertmanager.rs:32-142 | for every issue and project, with accepted configuration and project labels, rendering fails only on the alert name in force, and without a severity class only if that name renders blank |
| `Alertmanager.Service.Send` | src/alertmanager.rs:26-28 | an acknowledged post is what the receiver now holds for that identity; the call is one step of the protocol |
| `Alertmanager.Service.Resolve` | src/alertmanager.rs:214-218 | once acknowledged, the receiver's end for the alert is not in the future |
| `Alertmanager.Service.Announce` | src/alertmanager.rs:199-212 | on success exactly the pending alert is recorded as delivered and held by the receiver; other records are untouched; the call is a run of the protocol |
| `Alertmanager.Service.NotifyIssue` | src/alertmanager.rs:145-212 | nothing happens while the channel is off; otherwise success means the alert rendered for the issue at some time of the call has been delivered, and the receiver holds it for five minutes or three intervals from then, whichever is longer |
| `Alertmanager.Service.Close` | src/alertmanager.rs:271-275 | if the call succeeds the record of an alert that is no longer live is gone and the receiver's end for it has passed, and no other record changes |
| `Alertmanager.Service.Renew` | src/alertmanager.rs:303-329 | success leaves the record as it was or the new alert delivered, under the old start if it is the same alert; what is due is sent, what is not due throughout is left alone |
| `Alertmanager.Service.ReconcileOne` | src/alertmanager.rs:251-329 | on success a record that is not live is removed and its alert ended; a live one carries the labels rendered during the call and, if it was due or changed, has been sent again with a lease of five minutes or three intervals from then; the same alert keeps its start |
| `Alertmanager.Service.Refresh` | src/alertmanager.rs:221-250 | a sweep, with issues and projects changing and tracked issues being notified about between entries, is a run of the protocol that works through the keys in order; once the channel is disabled a sweep without failures leaves an empty store and no issue alert firing |
| `Alertmanager.SweepIsComplete` | src/alertmanager.rs:232-248 | a finished sweep reconciled every record present at its start exactly once, although records vanish in the middle of a page |
| `Alertmanager.SweepNext` | src/alertmanager.rs:238-247 | one entry keeps what the sweep relies on: everything above the cursor is still there and still to come |
| `IdOrder.Page` | src/adapters/sqlite/notifications.rs:154-169 | the page is ascending, above the cursor, and leaves out only keys above all of its own |
| `Alerts.Validate` | src/domain/notifications.rs:128-180 | accepts exactly the configurations with valid names, renderable templates, no reserved label and a non-blank alertname |
| `Alerts.RenderedAlertCarries` | src/alertmanager.rs:114-142 | the rendered alert carries the ids of the issue and the project whatever the templates say, every other label and every annotation as its template renders, the default five-minute lease and the link to the issue |
| `Alerts.AcceptedFailsOnlyBlank` | src/alertmanager.rs:114-142 | an accepted configuration fails to render if and only if its rendered alertname is blank, with that error |
| `Alerts.SeverityNameDecides` | src/alertmanager.rs:32-52 | with a severity class, rendering succeeds if and only if the operator's name is a valid template that does not render blank |
| `Alerts.OwnLabelsFailOnlyBlank` | src/alertmanager.rs:32-52 | without one, a project's own labels leave a blank alertname as the only failure |
| `Templates.Render` | src/domain/notifications.rs:185-221 | the loop computes the scanner function, error by error |
| `Templates.RenderMeansGrammar` | src/domain/notifications.rs:183-221 | a template renders if and only if it has a parse in the grammar whose names are supplied, and every parse gives the output, each value inserted verbatim and never read again |
| `Templates.ScanUnparse` | src/domain/notifications.rs:191-220 | scanning the text of a well-formed template gives its expansion |
| `Templates.ParseAccepted` | src/domain/notifications.rs:191-220 | whatever the scanner accepts is the text of a well-formed template |
| `Templates.ValidityIgnoresValues` | src/domain/notifications.rs:144-166 | success is the same for any two maps that cover the variables, so a check against sample values decides |
| `ConfigFiles.Unique` | src/domain/config_file.rs:160-177 | the growing-set check accepts exactly the lists without a repeated key |
| `ConfigFiles.ValidateGrants` | src/domain/config_file.rs:211-233 | exactly the teams with a grant section, well-formed distinct addresses (ignoring case) and non-blank distinct groups pass |
| `ConfigFiles.ValidateFile` | src/domain/config_file.rs:126-210 | exactly the files that meet every project and team rule pass, and a file that passes meets all that later steps rely on |
| `ConfigFiles.ValidatePlan` | src/domain/config_file.rs:389-430 | reports an unknown team for every project that has one and for no other, an owning team for every project left with a deleted team and for no other, and nothing if and only if the plan is accepted |
| `ConfigFiles.CheckReferences` | src/domain/config_file.rs:289-311 | all dangling references at once, and only those |
| `ConfigFiles.ReconcileMemberships` | src/domain/config_file.rs:275-286 | Admin if and only if some source says so, none if and only if there is no source, whatever the order |
| `ConfigSync.FinalOwners` | src/domain/config_file.rs:432-448 | the predicted owner of each project is the owner that sync and pruning leave, and "none" means deleted |
| `ConfigSync.OwnershipCheckIsExact` | src/domain/config_file.rs:399-424 | given valid references, the ownership check rejects if and only if deleting a team would find it still owning a project |
| `ConfigSync.PlanSound` | src/adapters/config_sync.rs:262-278 | after an accepted plan every declared project finds its team and no deleted team owns a project |
| `ConfigSync.LiveIsDeclared` | src/adapters/config_sync.rs:486-532 | after an application the teams and projects without an orphan mark are exactly the declared ones |
| `ConfigSync.Converges` | src/adapters/config_sync.rs:122-342 | each declared team has exactly the declared grants, each declared project the declared owner and fields |
| `DeclaredState.ProjectIsAsDeclared` | src/adapters/config_sync.rs:262-342 | every declared project is live with the declared owner, name, webhook, retention, interval and severity, each missing value replaced by its default; a new one has the keys drawn for it, an old one keeps keys and age and is touched only if it was orphaned or different |
| `DeclaredState.ProjectReport` | src/domain/config_file.rs:329-341 | a declared project is reported as created, restored, unchanged or updated according to whether it was missing, orphaned, as declared or different |
| `DeclaredState.UndeclaredProjectIsMarked` | src/adapters/config_sync.rs:425-452 | under the readonly policy an undeclared project changes in its orphan mark only, which is set once |
| `DeclaredState.TeamIsAsDeclared` | src/adapters/config_sync.rs:122-261 | every declared team is live and stores exactly the declared grants, addresses in lower case; an old one keeps id and age |
| `DeclaredState.TeamReport` | src/domain/config_file.rs:329-341 | a declared team is reported as created or restored if and only if it was missing or orphaned, and as unchanged only if it stored the declared grants |
| `ConfigSync.Idempotent` | src/adapters/config_sync.rs:59-121 | a second application, at any time and with any new identifiers, changes nothing and reports each declared entity once, as unchanged |
| `ConfigSync.StaysAccepted` | src/domain/config_file.rs:389-430 | a plan once accepted is accepted again after it has been applied, and no identifier drawn then can clash |
| `ConfigSync.TakenAtTurn` | src/adapters/config_sync.rs:317-337 | the insert of a declared project meets a unique index if and only if an identifier drawn for it is that of an existing project or of a new one before it |
| `ConfigDatabase.SyncReport.Record` | src/domain/config_file.rs:343-357 | appends the action and keeps every counter equal to the number of its actions |
| `ConfigDatabase.Database.Reconcile` | src/adapters/config_sync.rs:533-575 | the user's row becomes the highest granted role with its creation time kept, or is deleted; says whether a role was granted |
| `ConfigDatabase.Database.GrantsChanged` | src/adapters/config_sync.rs:136-167 | comparing stored and declared grants as sets of pairs decides whether the tables differ |
| `ConfigDatabase.Database.UpsertTeam` | src/adapters/config_sync.rs:122-204 | the team row after create, restore, update or no change, and the recorded action |
| `ConfigDatabase.Database.SyncTeam` | src/adapters/config_sync.rs:205-261 | grants rewritten and every user's membership recomputed; no other team changes |
| `ConfigDatabase.Database.SyncProject` | src/adapters/config_sync.rs:262-342 | fails before touching anything exactly on an unknown team, an interval out of range or, for a new project, a taken id, short id or DSN key, else leaves the planned row |
| `ConfigDatabase.Database.DeleteProjectEvents` | src/adapters/config_sync.rs:343-360 | the batch loop ends and removes all and only the project's events |
| `ConfigDatabase.Database.PruneProject` | src/adapters/config_sync.rs:361-386 | marks an orphan once, or deletes the project with its events |
| `ConfigDatabase.Database.PruneUndeclaredProjects` | src/adapters/config_sync.rs:495-510 | whatever the row order, exactly the undeclared projects are pruned and each is logged once |
| `ConfigDatabase.Database.PruneTeam` | src/adapters/config_sync.rs:387-424 | fails exactly when deleting a team that still owns a project |
| `ConfigDatabase.Database.PruneUndeclaredTeams` | src/adapters/config_sync.rs:511-522 | whatever the row order, exactly the undeclared teams are pruned and each is logged once, or a stranded project exists |
| `ConfigDatabase.Database.ApplyOnce` | src/adapters/config_sync.rs:59-121 | commits the whole application or restores the tables; rejects exactly the unaccepted plans; gives the reason of any other failure; reports declared entities in order and each pruned row once |
| `ConfigDatabase.Database.Apply` | src/adapters/config_sync.rs:576-586 | unless the database stays busy to the last retry, in which case nothing changed, succeeds if and only if the plan is accepted and the identifiers drawn for new projects are free; after an accepted plan nothing else can fail |
| `ConfigDatabase.SecondReport` | src/adapters/config_sync.rs:89-120 | the report of a second application is one "unchanged" per declared entity and nothing else |
| `ConfigDatabase.Database.ReconcileUserGrants` | src/adapters/config_sync.rs:637-680 | fails without effect for an unknown user, else replaces the groups, reconciles every live team and tells whether the user is now a member of one |
| `SyncHistory.IncrementalAgrees` | src/adapters/config_sync.rs:205-261 | over any history of sign-ups, sign-ins and applications with teams in the file, each reconciled user's role in each live team is the maximum of all matching grants, absent if none |
| `DeclaredState.RoleIsDeclared` | src/adapters/config_sync.rs:205-261 | after an application and any later sign-ups and sign-ins, a reconciled user is an Admin of a declared team if and only if a declared Admin grant names their address, in any case, or one of their groups; a Contributor if and only if only Contributor grants do; no member if and only if none does |
| `DeclaredState.SignInRecords` | src/adapters/config_sync.rs:637-680 | a sign-in stores the groups it reports, keeps the age of a membership and touches no other user's |
| `SyncHistory.FrozenWhileOrphaned` | src/adapters/config_sync.rs:667-675 | the membership of a team never changes while it is orphaned |
| `SyncHistory.ReadonlyKeepsIdentity` | src/adapters/config_sync.rs:292-342 | over any sequence of applications under the readonly policy no team, project or event is lost and each project's id, short id and DSN key stay |
| `SyncHistory.KeysStayUnique` | src/adapters/config_sync.rs:317-337 | ids, short ids and DSN keys stay unique over any sequence of applications |
| `SyncHistory.DeletesExactly` | src/adapters/config_sync.rs:361-386 | a project goes if and only if projects are declared, it is not among them and the policy deletes; any other keeps its id, short id and DSN key |
| `SyncHistory.EventsGoExactly` | src/adapters/config_sync.rs:343-386 | an event stays, unchanged, if and only if no project it belongs to is deleted, and none appears |
| `SyncHistory.EventsFollowProject` | src/adapters/config_sync.rs:343-386 | keys being unique, the events of a project stay if and only if the project does |
| `LoginGuards.LoginGuard.CheckAt` | src/auth/lockout.rs:116-133 | the decision of the check function, overflow bucket included |
| `LoginGuards.LoginGuard.RecordSuccessOf` | src/auth/lockout.rs:104-113 | the key is forgotten, the others kept |
| `LoginGuards.LoginGuard.RecordFailureAt` | src/auth/lockout.rs:138-184 | the new entries are those of the failure function: prune, choose the bucket, roll the window, count, trip |
| `LoginGuards.GuardRefinesMachines` | src/auth/lockout.rs:104-184 | while fewer than 10,000 keys are tracked each entry is that of a machine fed only its own key's failures and successes |
| `LoginGuards.DecisionsMatchMachines` | src/auth/lockout.rs:116-133 | hence so is every decision |
| `LoginGuards.RunIsBounded` | src/auth/lockout.rs:148-162 | in every reachable state at most 10,000 keys besides the overflow key are tracked |
| `LoginGuards.LocksAreDurable` | src/auth/lockout.rs:148-184 | a lock set in a run is still there, at least as long, after anything that happens on any key before it expires, short of that key's own success |
| `LoginGuards.DurationMonotone` | src/auth/lockout.rs:188-197 | a higher level never locks for less and no level for more than the maximum |
| `LoginGuards.DocumentedExactly` | src/auth/lockout.rs:186-197 | base times 2^(level-1), capped, at every level if and only if the maximum is at most 2^31 base lockouts (or the base is zero) |
| `LoginEscalation.EscalationTakesTime` | src/auth/lockout.rs:177-183 | an entry charged while locked at most once, and never if one attempt trips it, reaches level k only after its first k-1 lockouts |
| `LoginEscalation.EntryIsMachine` | src/auth/lockout.rs:138-184 | in every run, with any number of keys, pruning and overflow included, each entry is the machine of the failures charged to it since it was last created |
| `LoginEscalation.SpentIsOwn` | src/auth/lockout.rs:148-162 | what is charged to an account is its own latest failures without a gap |
| `LoginEscalation.SpentIsPolite` | src/auth/lockout.rs:116-162 | in every run of the guard whose failures follow allowed checks, no account's entry is charged while locked, and an overflow entry exactly once if a displaced failure has hit it, never otherwise |
| `LoginEscalation.HitIsSmall` | src/auth/lockout.rs:148-162 | while an overflow entry that was hit stays, at most 10,000 keys are tracked, so it cannot be hit again |
| `LoginEscalation.GuardEscalationTakesTime` | src/auth/lockout.rs:116-184 | in every such run every entry at level k, the overflow entry included, has sat out its first k-1 lockouts; the one exception is an overflow entry that was hit under a limit of one attempt |
| `LoginEscalation.GuardTripNeedsFullWindow` | src/auth/lockout.rs:138-184 | in every such run every trip of an account follows its own latest `max_attempts` failures, all within one window, and every trip of the overflow entry that many failures charged to it |
| `LoginEscalation.OverflowIsPoliteExactly` | src/auth/lockout.rs:116-162 | in such a run the overflow entry is never charged while locked if and only if no failure is displaced |
| `LoginEscalation.TripsWhileLockedExactly` | src/auth/lockout.rs:116-184 | in such a run the overflow entry trips while locked if and only if the limit is one attempt and some failure is displaced |
| `LoginEscalation.OverflowTripsWhileLocked` | src/auth/lockout.rs:116-184 | a reachable run of checked failures in which the locked overflow entry trips again |
| `LoginEscalation.TripNeedsFullWindow` | src/auth/lockout.rs:164-183 | every trip of an entry charged while locked at most once follows the configured number of consecutive failures within one window |
| `LoginEscalation.TripsExactly` | src/auth/lockout.rs:164-183 | an entry trips exactly at the configured number of failures since its window opened, and a failure after the window, outside a lock, opens the next |
| `LoginEscalation.LevelCountsTrips` | src/auth/lockout.rs:177-183 | the k-th trip of an entry gives it level k and locks it from that moment for the k-th lockout |
| `LoginEscalation.FailuresLock` | src/auth/lockout.rs:138-184 | an account without an entry, or with an idle one, that fails the configured number of times within one window is locked from the last failure for exactly the lockout of its next level, while fewer than 10,000 keys are tracked before |
| `LoginEscalation.FewerDoNotLock` | src/auth/lockout.rs:138-184 | and is allowed after any smaller number |
| `LoginEscalation.FirstLockout` | src/auth/lockout.rs:138-197 | the first lockout lasts exactly the base lockout |
| `LoginEscalation.ReplayIsMachine` | src/auth/lockout.rs:160-184 | between successes the machine of a key depends on its failure times alone |
| `LoginGuards.SecsAreExact` | src/auth/lockout.rs:202-210 | the advertised seconds are the least whole number that reaches the end of the lock |
| `LoginGuards.RetryAfterSuffices` | src/auth/lockout.rs:116-133 | waiting them with no new failure is always allowed, whoever else signs in meanwhile; one second less is not |
| `Normalize.CollapseDigitRuns` | src/grouping/normalize.rs:191-206 | the loop computes the run-by-run masking |
| `Normalize.Turn` | src/grouping/normalize.rs:129-166 | one turn of the scanner pushes and consumes what the piece function says, 36-character lookahead included |
| `Normalize.NormalizeMessageLoop` | src/grouping/normalize.rs:123-169 | the loop computes the normalization function |
| `Normalize.OutputHasNoDigit` | src/grouping/normalize.rs:116-206 | no ASCII digit survives, for any message |
| `Normalize.ScanCopies` | src/grouping/normalize.rs:150-206 | output that reads like the letters and dashes of a UUID was copied from the input, never produced by masking |
| `Normalize.NoNewUuid` | src/grouping/normalize.rs:142-148 | masking never creates a UUID at a scan position |
| `Normalize.Idempotent` | src/grouping/normalize.rs:116-169 | normalizing a normalized message changes nothing, for every message |
| `MessageTokens.NormalizesTokenwise` | src/grouping/normalize.rs:116-206 | the normalized message is the message read token by token: a UUID as `<uuid>`, a number as `<int>`, a mixed word of six or more characters as `<id>`, any other word as its letters with `<int>` for each digit run, a gap as one space, anything else as itself, without the outer white space |
| `MessageTokens.EveryMessageTokenizes` | src/grouping/normalize.rs:129-166 | every message can be read so |
| `MessageTokens.VolatileTokensIgnored` | src/grouping/normalize.rs:116-122 | messages that differ only in numbers, UUIDs, random ids, digit runs and white space normalize alike |
| `MessageTokens.NumberExample` | src/grouping/normalize.rs:343-353 | a number reads as `<int>` |
| `MessageTokens.ShortWordExample` | src/grouping/normalize.rs:387-398 | `md5` reads as `md<int>` |
| `MessageTokens.RandomIdExample` | src/grouping/normalize.rs:360-371 | a random id reads as `<id>` |
| `Fnv.ComputeHashHex` | src/grouping/fingerprint.rs:190-200 | the loop computes FNV-1a over the bytes, as 16 hexadecimal digits |
| `Fnv.StepInjective` | src/grouping/fingerprint.rs:195-198 | one step is injective in the state and in the byte |
| `Fnv.HexInjective` | src/grouping/fingerprint.rs:199-199 | zero-padded hexadecimal determines the number |
| `Fnv.SingleByteChange` | src/grouping/fingerprint.rs:190-200 | inputs of equal length that differ in exactly one byte have different hashes |
| `Fnv.ReferenceValues` | src/grouping/fingerprint.rs:190-199 | the hashes of the empty text and of "a" are the published ones |
| `Fnv.HexReadsBack` | src/grouping/fingerprint.rs:199-199 | the printed form reads back as the number |
| `Grouping.Utf8ReadsBack` | src/grouping/fingerprint.rs:195-195 | the hashed bytes are the UTF-8 form of the material |
| `Grouping.VolatilePartsIgnored` | src/grouping/fingerprint.rs:66-122 | the fingerprint, default or custom, depends only on module, function and path of the in-app frames when there is one |
| `Grouping.LibraryFramesInterchangeable` | src/grouping/fingerprint.rs:104-122 | any run of library frames can be inserted, removed or replaced anywhere |
| `Grouping.DefaultPlaceholderReproducesDefault` | src/grouping/fingerprint.rs:36-64 | a lone default placeholder, in either spelling, gives the default fingerprint |
| `Grouping.TypeLeads` | src/grouping/fingerprint.rs:77-81 | an exception type, trimmed, is the first component |
| `Grouping.FramesReachMaterial` | src/grouping/fingerprint.rs:83-122 | exactly the signatures of the in-app frames, or of all frames if none is in-app, are components |
| `Grouping.FramesInOrder` | src/grouping/fingerprint.rs:104-122 | each in its place after those of the in-app frames before it |
| `Grouping.TextIsLastResort` | src/grouping/fingerprint.rs:90-98 | without a type and a signature the masked message is the only component, without a message the masked value |
| `Grouping.TextOtherwiseIgnored` | src/grouping/fingerprint.rs:90-98 | with a type or a signature neither counts |
| `Grouping.SignaturePrecedence` | src/grouping/normalize.rs:16-49 | a frame is known by module and function, else by module and path, else by what there is of these, the file name before the absolute path |
| `Grouping.RustHashDropped` | src/grouping/normalize.rs:220-230 | the hash suffix of a Rust symbol is dropped |
| `Grouping.OffsetDropped` | src/grouping/normalize.rs:58-72 | the offset of an address within a function is dropped |
| `Grouping.QueryDropped` | src/grouping/normalize.rs:83-92 | the query of a URL is dropped |
| `Grouping.BundleHashDropped` | src/grouping/normalize.rs:232-262 | the content hash in a bundle's file name is dropped |
| `Grouping.DefaultMaterialSeparates` | src/grouping/fingerprint.rs:100-101 | components without a line break are told apart by the default material |
| `Grouping.FingerprintIsJoined` | src/grouping/fingerprint.rs:42-64 | every fingerprint, default or custom, is the hash of the event's parts joined at the separator, placeholders expanded |
| `Grouping.MaterialsCollideExactly` | src/grouping/fingerprint.rs:42-64 | two events have the same material if and only if their expanded parts break into the same pieces at the separator |
| `Grouping.SeparableListsDiffer` | src/grouping/fingerprint.rs:42-64 | lists free of the separator, with no placeholder or a default material free of it, have the same material if and only if they are equal once expanded, and as given if neither names a placeholder |
| `Grouping.CollideExactly` | src/grouping/fingerprint.rs:62-63 | two lists of expanded parts join to the same text if and only if they break into the same pieces |
| `Grouping.FreeListsDiffer` | src/grouping/fingerprint.rs:62-63 | expanded lists free of the separator join to the same text if and only if they are equal |
| `Grouping.UniqueExactly` | src/grouping/fingerprint.rs:62-63 | an expanded list shares its joined text with no other list if and only if it is a single part free of the separator |
| `Grouping.LongListsCollide` | src/grouping/fingerprint.rs:62-63 | every custom list of two or more components has the fingerprint of another list |
| `Grouping.PlaceholderCollision` | src/grouping/fingerprint.rs:45-63 | a default material that holds the separator makes the lone placeholder collide with the two components it spells out |
| `Grouping.TypeCollision` | src/grouping/fingerprint.rs:45-63 | an exception type with the separator is such an event |
| `Grouping.BoundaryCollision` | src/grouping/fingerprint.rs:62-63 | a component that contains the separator collides with the list it spells out |
| `Slug.ComputeSlug` | src/domain/project.rs:90-111 | the loop computes the slug function |
| `Slug.SlugifyIsValid` | src/domain/project.rs:65-111 | every input gives a slug the strict rule accepts, the random fallback included |
| `Slug.ValidIsFixpoint` | src/domain/project.rs:70-111 | every valid slug is its own slug |
| `Slug.SlugifyLetters` | src/domain/project.rs:93-105 | the letters and digits of the slug are those of the input, lower-cased and in order, and all of them below the length limit |
| `Slug.SlugIsDashedWords` | src/domain/project.rs:90-111 | the slug is the words of the input in lower case, one dash between two of them, cut after 48 characters and before a dash the cut would leave at the end |
| `Slug.SlugOfNoWord` | src/domain/project.rs:106-109 | a text without a letter or digit gets the fallback |
| `Retry.BackoffRange` | src/config.rs:302-312 | a delay stays within a quarter of its capped value (plus one millisecond) and is never zero |
| `Retry.CappedGrows` | src/config.rs:302-306 | capped delays grow with the attempt and never pass the maximum |
| `Retry.CappedDoubles` | src/config.rs:302-306 | the capped delay starts at the base and doubles with each of the first 31 attempts until it meets the maximum |
| `Retry.Database.RetryWrite` | src/adapters/retry.rs:22-48 | at most one more attempt than the retries; success is one committed effect and failure none; other errors are final; only a spent budget gives `DbBusy`; all sleeps together last at most the retries times the longest jittered delay |
| `Retry.TotalBounded` | src/adapters/retry.rs:35-43 | paced sleeps total at most their number times the longest jittered delay |

## Left out

- Delivery of a request after its own failure was reported: a send takes effect at its step or not at all, so a request that times out and arrives after a later resolution is outside the safety theorem.
- Failing reads: a read error aborts `refresh` between pages; the other reads of `notify` and `reconcile` succeed, and a failing one would only end the call earlier.
- Alertmanager.Service.Refresh: no notification for an issue that is not tracked runs between its entries, so that the set of records to sweep is fixed.
- Retry.BackoffRange: does not model the 64-bit overflow of a jittered delay, possible only with a configured maximum above 2^63 milliseconds.
- LoginGuards.LoginGuard.RecordFailureAt: the 32-bit level counter is unbounded here; it would wrap after 2^32 lockouts of one key.
- LoginEscalation.GuardEscalationTakesTime: each failure directly follows its allowed check; sign-ins that all check before any of them fails are not such runs.
- ConfigFiles.ValidateGrants: lower-casing covers ASCII letters; the full Unicode mapping is not modelled.
- ConfigDatabase.Database.UpsertTeam: a new team is always inserted; a clash of its random id or short code, which a unique index would refuse, is not modelled.
- ConfigDatabase.Database.Apply: for the same reason, names no failure for a new team.
- Report figures read back from the database after a sync (pending grants, local accounts, orphan totals), and the notification settings row.
- Removal of users and changes of e-mail address between sign-ins.
- YAML and environment parsing, URL parsing, and the HTTP, SQL, mail and single-sign-on layers: library behaviour.
- Exact texts of error messages, and which of several template errors in one configuration is reported first.
- Retention sweep, cron schedules, role tables of the HTTP API, user-agent parsing and tag extraction.
