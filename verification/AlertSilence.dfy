/** When a delivered alert is silent (src/alertmanager.rs): the record says "delivered" and its lease has
    time left, yet nothing fires at the receiver. */
module AlertSilence {
  import opened Text
  import opened Alerts
  import opened AlertProtocol

  /** The issues whose resolution has taken effect since their record was last written or removed. */
  function Note(w: World, closed: set<string>, s: Step): set<string>
    requires Enabled(w, s)
  {
    match s
    case Post(how, at) => if w.pc.Closing? && !how.Refused? then closed + {w.pc.old_.issueId} else closed
    case Write(how, at) =>
      if how.Refused? then closed
      else if w.pc.Removing? then closed - {w.pc.id}
      else if w.pc.Saving? then closed - {w.pc.draft.issueId}
      else closed - {w.pc.sent.issueId}
    case _ => closed
  }

  ghost function ClosedAfter(w: World, steps: seq<Step>): set<string>
    requires ValidRun(w, steps)
  {
    if steps == [] then {}
    else
      var pre := steps[..|steps| - 1];
      Note(After(w, pre), ClosedAfter(w, pre), steps[|steps| - 1])
  }

  /** The record claims a delivery whose lease has not run out. */
  predicate ClaimsFiring(w: World, id: string) {
    id in w.store && w.store[id].lastSentAt.Some? && w.store[id].alert.endsAt > w.now
  }

  /** What the receiver holds for a record marked "delivered". */
  predicate Held(w: World, closed: set<string>, id: string)
    requires id in w.store
  {
    var x := IdentityOf(w.store[id]);
    x in w.receiver
    && if id in closed then w.receiver[x] <= w.now else w.receiver[x] == w.store[id].alert.endsAt
  }

  ghost predicate Known(w: World, closed: set<string>) {
    && Inv(w)
    && (forall id :: id in w.store && w.store[id].lastSentAt.Some? ==> Held(w, closed, id))
    && match w.pc
       case Closing(_, next) => next.Some? ==> next.value.lastSentAt.None?
       case Saving(draft) => draft.lastSentAt.None?
       case Sending(saved) => saved.lastSentAt.None?
       case Marking(sent) =>
         sent.lastSentAt.None? && IdentityOf(sent) in w.receiver && w.receiver[IdentityOf(sent)] == sent.alert.endsAt
       case _ => true
  }

  /** Posts go under the identity of the record they were made from, so they reach no other record's. */
  lemma PostReachesOnly(w: World, s: Step, id: string)
    requires Inv(w) && s.Post? && Enabled(w, s) && id in w.store
    requires id != (if w.pc.Closing? then w.pc.old_ else w.pc.saved).issueId
    ensures var x := IdentityOf(w.store[id]);
            && (x in Apply(w, s).receiver <==> x in w.receiver)
            && (x in w.receiver ==> Apply(w, s).receiver[x] == w.receiver[x])
  {
  }

  lemma PostKeepsKnown(w: World, closed: set<string>, s: Step)
    requires Known(w, closed) && s.Post? && Enabled(w, s)
    ensures Known(Apply(w, s), Note(w, closed, s))
  {
    StepPreserves(w, s);
    var w' := Apply(w, s);
    forall id | id in w'.store && w'.store[id].lastSentAt.Some?
      ensures Held(w', Note(w, closed, s), id)
    {
      assert Held(w, closed, id);
      if id != (if w.pc.Closing? then w.pc.old_ else w.pc.saved).issueId {
        PostReachesOnly(w, s, id);
      }
    }
  }

  lemma WriteKeepsKnown(w: World, closed: set<string>, s: Step)
    requires Known(w, closed) && s.Write? && Enabled(w, s)
    ensures Known(Apply(w, s), Note(w, closed, s))
  {
    StepPreserves(w, s);
    var w' := Apply(w, s);
    forall id | id in w'.store && w'.store[id].lastSentAt.Some?
      ensures Held(w', Note(w, closed, s), id)
    {
      if id in w.store && w.store[id] == w'.store[id] {
        assert Held(w, closed, id);
      }
    }
  }

  lemma StepKeepsKnown(w: World, closed: set<string>, s: Step)
    requires Known(w, closed) && Enabled(w, s)
    ensures Known(Apply(w, s), Note(w, closed, s))
  {
    if s.Post? {
      PostKeepsKnown(w, closed, s);
    } else if s.Write? {
      WriteKeepsKnown(w, closed, s);
    } else {
      StepPreserves(w, s);
      var w' := Apply(w, s);
      forall id | id in w'.store && w'.store[id].lastSentAt.Some?
        ensures Held(w', closed, id)
      {
        assert Held(w, closed, id);
        assert IssueIdentity(IdentityOf(w.store[id]));
      }
    }
  }

  lemma {:induction false} RunsAreKnown(w: World, steps: seq<Step>)
    requires Init(w) && ValidRun(w, steps)
    ensures Known(After(w, steps), ClosedAfter(w, steps))
  {
    if steps != [] {
      var pre := steps[..|steps| - 1];
      RunsAreKnown(w, pre);
      StepKeepsKnown(After(w, pre), ClosedAfter(w, pre), steps[|steps| - 1]);
    }
  }

  /** Over every run, with all faults and crashes: a record that claims a running delivery is right unless
      a resolution of the alert took effect and no write of the record has since. */
  lemma SilentExactly(w: World, steps: seq<Step>, id: string)
    requires Init(w) && ValidRun(w, steps) && ClaimsFiring(After(w, steps), id)
    ensures var e := After(w, steps);
            Firing(e, IdentityOf(e.store[id])) <==> id !in ClosedAfter(w, steps)
  {
    RunsAreKnown(w, steps);
    assert Held(After(w, steps), ClosedAfter(w, steps), id);
  }

  // ---- how it comes about ----

  /** The issue whose record is about to be replaced or removed. */
  function Replacing(pc: Pc): set<string> {
    if pc.Removing? then {pc.id} else if pc.Saving? then {pc.draft.issueId} else {}
  }

  /** The reply to a resolution is lost, or the write that should follow it fails or never happens. */
  predicate Interrupts(w: World, closed: set<string>, s: Step) {
    (s.Post? && w.pc.Closing? && s.how.LostReply?)
    || (((s.Write? && s.how.Refused?) || s.Crash?) && Replacing(w.pc) * closed != {})
  }

  ghost predicate Uninterrupted(w: World, steps: seq<Step>)
    requires ValidRun(w, steps)
  {
    steps != [] ==>
      var pre := steps[..|steps| - 1];
      Uninterrupted(w, pre) && !Interrupts(After(w, pre), ClosedAfter(w, pre), steps[|steps| - 1])
  }

  lemma {:induction false} ClosedIsReplacing(w: World, steps: seq<Step>)
    requires Init(w) && ValidRun(w, steps) && Uninterrupted(w, steps)
    ensures ClosedAfter(w, steps) <= Replacing(After(w, steps).pc)
  {
    if steps != [] {
      var pre := steps[..|steps| - 1];
      ClosedIsReplacing(w, pre);
      NeverUntracked(w, pre);
    }
  }

  /** Whatever else fails, a run in which no replacement is interrupted has no silent alert between calls. */
  lemma NoSilenceUninterrupted(w: World, steps: seq<Step>, id: string)
    requires Init(w) && ValidRun(w, steps) && Uninterrupted(w, steps)
    requires After(w, steps).pc.Idle? && ClaimsFiring(After(w, steps), id)
    ensures Firing(After(w, steps), IdentityOf(After(w, steps).store[id]))
  {
    ClosedIsReplacing(w, steps);
    SilentExactly(w, steps, id);
  }

  /** A step closes the recorded alert of `id`: a new notification for it, a pass that finds it no longer
      live, or a pass that finds its labels or its destination changed. */
  predicate Closes(w: World, id: string, s: Step)
    requires id in w.store
  {
    match s
    case Notify(p) => p.issueId == id
    case Reconcile(i, live, endpoint, alert, _, _) =>
      i == id && (!live || Identity(endpoint, alert.labels) != IdentityOf(w.store[id]))
    case _ => false
  }

  /** Each of them can silence a delivered alert: the resolution arrives, the write after it fails, and the
      next pass, with the issue live under its old labels, finds nothing due. */
  lemma LostWriteSilences(w: World, x: Identity, first: Step, alert: Alert, seconds: int)
    requires IssueIdentity(x) && Inv(w) && w.pc.Idle? && Tracked(w, x)
    requires Enabled(w, first) && Closes(w, x.labels["issue_id"], first) && alert.labels == x.labels
    requires NotDue(w.store[x.labels["issue_id"]], seconds, w.now, w.now)
    ensures var t := Reads(w.now, w.now, w.now, w.now);
            var steps := [first, Post(Done, w.now), Write(Refused, w.now),
                          Reconcile(x.labels["issue_id"], true, x.endpoint, alert, seconds, t)];
            && ValidRun(w, steps)
            && After(w, steps).pc.Idle? && After(w, steps).store == w.store && !Firing(After(w, steps), x)
  {
    var b, c := Post(Done, w.now), Write(Refused, w.now);
    var d := Reconcile(x.labels["issue_id"], true, x.endpoint, alert, seconds, Reads(w.now, w.now, w.now, w.now));
    assert [] + [first] == [first] && [first] + [b] == [first, b] && [first, b] + [c] == [first, b, c]
        && [first, b, c] + [d] == [first, b, c, d];
    Extend(w, [], first);
    Extend(w, [first], b);
    Extend(w, [first, b], c);
    assert After(w, [first, b, c]) == w.(receiver := w.receiver[x := w.now]);
    Extend(w, [first, b, c], d);
  }

  /** Nothing else makes the service close a recorded alert. */
  lemma ClosesExactly(w: World, id: string, s: Step)
    requires Inv(w) && w.pc.Idle? && id in w.store && Enabled(w, s)
    ensures Apply(w, s).pc.Closing? && Apply(w, s).pc.old_.issueId == id <==> Closes(w, id, s)
  {
  }

  // ---- how it ends ----

  /** A pass over a live alert under its recorded identity. */
  predicate PassOver(w: World, id: string, s: Step)
    requires id in w.store
  {
    s.Reconcile? && s.id == id && s.live && Identity(s.endpoint, s.alert.labels) == IdentityOf(w.store[id])
  }

  /** Until the interval has passed since the recorded delivery, a pass may leave a silence as it is; from
      then on every pass sets out to send again. */
  lemma DueSendsAgain(w: World, id: string, s: Step)
    requires Inv(w) && id in w.store && Enabled(w, s) && PassOver(w, id, s)
    ensures Apply(w, s) == w <==> NotDue(w.store[id], s.seconds, s.clock.checked, s.clock.leased)
    ensures w.store[id].lastSentAt.Some? && s.clock.checked >= w.store[id].lastSentAt.value + s.seconds * SECOND ==>
              Apply(w, s).pc.Saving?
  {
  }

  /** The steps of a pass that is acknowledged throughout, ending at time `c`. */
  function Acknowledged(s: Step, a: Time, b: Time, c: Time): seq<Step> {
    [s, Tick(a), Write(Done, a), Tick(b), Post(Done, b), Tick(c), Write(Done, c)]
  }

  /** And the first such pass that is acknowledged ends the silence: the alert fires again, and its record is
      true again. */
  lemma AcknowledgedPassRevives(w: World, id: string, s: Step, a: Time, b: Time, c: Time)
    requires Inv(w) && id in w.store && Enabled(w, s) && PassOver(w, id, s) && w.now <= a <= b <= c
    requires !NotDue(w.store[id], s.seconds, s.clock.checked, s.clock.leased)
    ensures var steps := Acknowledged(s, a, b, c);
            && ValidRun(w, steps) && After(w, steps).pc.Idle? && ClaimsFiring(After(w, steps), id) == (s.alert.endsAt > c)
            && Firing(After(w, steps), IdentityOf(w.store[id])) == (s.alert.endsAt > c)
  {
    var draft := w.store[id].(alert := s.alert.(startsAt := w.store[id].alert.startsAt), lastSentAt := None);
    assert Apply(w, s) == w.(pc := Saving(draft)) && draft.issueId == id;
    RenewalRun(w, s, draft, a, b, c);
  }

  lemma RenewalRun(w: World, s: Step, draft: Record, a: Time, b: Time, c: Time)
    requires Enabled(w, s) && Apply(w, s) == w.(pc := Saving(draft)) && w.now <= a <= b <= c
    ensures var steps := Acknowledged(s, a, b, c);
            ValidRun(w, steps)
            && After(w, steps) == World(w.store[draft.issueId := draft.(lastSentAt := Some(c))],
                                        w.receiver[IdentityOf(draft) := draft.alert.endsAt], c, Idle)
  {
    var first, second := [s, Tick(a), Write(Done, a)], [Tick(b), Post(Done, b), Tick(c), Write(Done, c)];
    var mid := w.(now := a, store := w.store[draft.issueId := draft], pc := Sending(draft));
    SaveRun(w, s, draft, a);
    SendRun(mid, draft, b, c);
    Concat(w, first, second);
    assert first + second == Acknowledged(s, a, b, c);
    Overwrites(w.store, draft.issueId, draft, draft.(lastSentAt := Some(c)));
  }

  lemma Overwrites(m: map<string, Record>, k: string, a: Record, b: Record)
    ensures m[k := a][k := b] == m[k := b]
  {
  }

  lemma SaveRun(w: World, s: Step, draft: Record, a: Time)
    requires Enabled(w, s) && Apply(w, s) == w.(pc := Saving(draft)) && w.now <= a
    ensures var steps := [s, Tick(a), Write(Done, a)];
            ValidRun(w, steps)
            && After(w, steps) == w.(now := a, store := w.store[draft.issueId := draft], pc := Sending(draft))
  {
    assert [] + [s] == [s] && [s] + [Tick(a)] == [s, Tick(a)];
    assert [s, Tick(a)] + [Write(Done, a)] == [s, Tick(a), Write(Done, a)];
    Extend(w, [], s);
    Extend(w, [s], Tick(a));
    Extend(w, [s, Tick(a)], Write(Done, a));
  }

  lemma SendRun(w: World, saved: Record, b: Time, c: Time)
    requires w.pc == Sending(saved) && w.now <= b <= c
    ensures var steps := [Tick(b), Post(Done, b), Tick(c), Write(Done, c)];
            ValidRun(w, steps)
            && After(w, steps) == World(w.store[saved.issueId := saved.(lastSentAt := Some(c))],
                                        w.receiver[IdentityOf(saved) := saved.alert.endsAt], c, Idle)
  {
    var p, q, r, s := Tick(b), Post(Done, b), Tick(c), Write(Done, c);
    assert [] + [p] == [p] && [p] + [q] == [p, q] && [p, q] + [r] == [p, q, r] && [p, q, r] + [s] == [p, q, r, s];
    Extend(w, [], p);
    Extend(w, [p], q);
    Extend(w, [p, q], r);
    Extend(w, [p, q, r], s);
  }

  lemma {:induction false} Concat(w: World, a: seq<Step>, b: seq<Step>)
    requires ValidRun(w, a) && ValidRun(After(w, a), b)
    ensures ValidRun(w, a + b) && After(w, a + b) == After(After(w, a), b)
    decreases |b|
  {
    if b == [] {
      assert a + b == a;
    } else {
      var n := |b| - 1;
      Concat(w, a, b[..n]);
      Extend(w, a + b[..n], b[n]);
      assert a + b[..n] + [b[n]] == a + b;
    }
  }
}
