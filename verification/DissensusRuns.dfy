/** Gateways of one site that disagree: since when the alarm says they do, and the email sent after five minutes.
    The two dates are kept on the site's gateway alarm, and only a report that finds that alarm live looks at them. */
module DissensusRuns {
  import opened Basics
  import opened EscalationChain
  import opened AlarmTables
  import opened AlarmSteps
  import opened EscalationRuns
  import opened SiteReconciliation

  /** The two dates of the alarm. */
  datatype Mark = Mark(since: Option<Time>, emailAt: Option<Time>)

  /** A step as the two dates see it: a report of the alarm's site or not, whether the gateways heard of lately
      disagree, and whether the report finds the alarm live. */
  datatype Sight = Sight(now: Time, report: bool, divergent: bool, watched: bool)

  const NO_MARK := Mark(None, None)

  function MarkStep(m: Mark, s: Sight): (Mark, bool) {
    if !s.report || !s.watched then (m, false)
    else if !s.divergent then (if m.since.Some? then NO_MARK else m, false)
    else if m.since.None? then (m.(since := Some(s.now)), false)
    else if m.emailAt.None? && s.now - m.since.value > DISSENSUS_EMAIL_THRESHOLD then (m.(emailAt := Some(s.now)), true)
    else (m, false)
  }

  // ----- watching a site: marks and emails against the reports -----

  ghost predicate Marked(marks: seq<Mark>, seen: seq<Sight>, emails: seq<bool>, k: nat) {
    && k < |seen| && |marks| == |seen| + 1 && |emails| == |seen|
    && (marks[k + 1], emails[k]) == MarkStep(marks[k], seen[k])
  }

  ghost predicate IsWatch(marks: seq<Mark>, seen: seq<Sight>, emails: seq<bool>) {
    && |marks| == |seen| + 1 && |emails| == |seen|
    && marks[0] == NO_MARK
    && (forall k: nat | k < |seen| :: Marked(marks, seen, emails, k))
    && forall i, j | 0 <= i < j < |seen| :: seen[i].now <= seen[j].now
  }

  predicate Counts(s: Sight, watchedOnly: bool) { s.report && (watchedOnly ==> s.watched) }

  /** The first report of the unbroken divergent stretch that goes on after k steps, None when the last report agreed:
      judged on all the reports of the site, or only on those that find the alarm live. */
  function Start(seen: seq<Sight>, k: nat, watchedOnly: bool): (f: Option<nat>)
    requires k <= |seen|
    ensures f.Some? ==> f.value < k && Counts(seen[f.value], watchedOnly) && seen[f.value].divergent
  {
    if k == 0 then None
    else if !Counts(seen[k - 1], watchedOnly) then Start(seen, k - 1, watchedOnly)
    else if !seen[k - 1].divergent then None
    else if Start(seen, k - 1, watchedOnly).Some? then Start(seen, k - 1, watchedOnly)
    else Some(k - 1)
  }

  /** Every report that counts, from f on and before k, diverged. */
  ghost predicate DivergesThrough(seen: seq<Sight>, f: nat, k: nat, watchedOnly: bool) {
    forall j | f <= j < k && j < |seen| && Counts(seen[j], watchedOnly) :: seen[j].divergent
  }

  /** What Start means: the stretch starts at f exactly when f diverged, nothing diverged right before it, and
      everything has diverged since. */
  lemma {:induction false} StartIs(seen: seq<Sight>, k: nat, watchedOnly: bool, f: nat)
    requires k <= |seen|
    ensures Start(seen, k, watchedOnly) == Some(f) <==>
              && f < k && Counts(seen[f], watchedOnly) && Start(seen, f, watchedOnly) == None
              && DivergesThrough(seen, f, k, watchedOnly)
  {
    if k > 0 {
      StartIs(seen, k - 1, watchedOnly, f);
      if Start(seen, k - 1, watchedOnly) == Some(f) || f < k - 1 {
        assert DivergesThrough(seen, f, k, watchedOnly) <==>
                 DivergesThrough(seen, f, k - 1, watchedOnly)
                 && (Counts(seen[k - 1], watchedOnly) ==> seen[k - 1].divergent);
      }
    }
  }

  // ----- what the recorded date is -----

  ghost predicate EmailedSince(emails: seq<bool>, from: nat, until: nat) {
    exists i :: from <= i < until && i < |emails| && emails[i]
  }

  ghost predicate MarkTells(m: Mark, seen: seq<Sight>, emails: seq<bool>, k: nat)
    requires k <= |seen| == |emails|
  {
    match Start(seen, k, true)
    case None => m == NO_MARK
    case Some(f) => m.since == Some(seen[f].now) && (m.emailAt.Some? <==> EmailedSince(emails, f, k))
  }

  lemma MarkTellsOneMore(marks: seq<Mark>, seen: seq<Sight>, emails: seq<bool>, k: nat)
    requires IsWatch(marks, seen, emails) && Marked(marks, seen, emails, k) && MarkTells(marks[k], seen, emails, k)
    ensures MarkTells(marks[k + 1], seen, emails, k + 1)
  {
    var f := Start(seen, k, true);
    if f.Some? {
      assert EmailedSince(emails, f.value, k + 1) <==> EmailedSince(emails, f.value, k) || emails[k];
    } else if Start(seen, k + 1, true).Some? {
      assert !EmailedSince(emails, k, k + 1);
    }
  }

  /** Over any run, the date recorded is that of the first report of the current divergent stretch among the reports
      that found the alarm live, and the email date says whether one has been sent since. */
  lemma {:induction false} DateIsOfWatchedStretch(marks: seq<Mark>, seen: seq<Sight>, emails: seq<bool>, k: nat)
    requires IsWatch(marks, seen, emails) && k <= |seen|
    ensures MarkTells(marks[k], seen, emails, k)
  {
    if k > 0 {
      DateIsOfWatchedStretch(marks, seen, emails, k - 1);
      assert Marked(marks, seen, emails, k - 1);
      MarkTellsOneMore(marks, seen, emails, k - 1);
    }
  }

  /** No divergence was going on unseen when the date was recorded, and no agreement has come unseen since. */
  ghost predicate Undisturbed(seen: seq<Sight>, f: nat, k: nat)
    requires f <= |seen|
  {
    && Start(seen, f, false) == None
    && forall j | f < j < k && j < |seen| && seen[j].report && !seen[j].watched :: seen[j].divergent
  }

  /** The stretch recorded is the real one, judged on all reports, exactly when no report that the alarm was not live to
      see began it earlier or ended it meanwhile. */
  lemma {:induction false} RecordedStretchIsRealExactly(seen: seq<Sight>, k: nat, f: nat)
    requires k <= |seen| && Start(seen, k, true) == Some(f)
    ensures Start(seen, k, false) == Some(f) <==> Undisturbed(seen, f, k)
  {
    StartIs(seen, k, true, f);
    StartIs(seen, k, false, f);
    if Undisturbed(seen, f, k) {
      forall j | f <= j < k && Counts(seen[j], false) ensures seen[j].divergent {
        assert seen[j].watched ==> Counts(seen[j], true);
      }
    }
    if Start(seen, k, false) == Some(f) {
      forall j | f < j < k && seen[j].report && !seen[j].watched ensures seen[j].divergent {
        assert Counts(seen[j], false);
      }
    }
  }

  /** The same of the dates, when no two reports come at one instant. */
  lemma RecordedDateIsRealExactly(marks: seq<Mark>, seen: seq<Sight>, emails: seq<bool>, k: nat, f: nat)
    requires IsWatch(marks, seen, emails) && k <= |seen| && Start(seen, k, true) == Some(f)
    requires forall i, j | 0 <= i < j < |seen| && seen[i].report && seen[j].report :: seen[i].now < seen[j].now
    ensures marks[k].since == Some(seen[f].now)
    ensures Start(seen, k, false).Some? && marks[k].since == Some(seen[Start(seen, k, false).value].now)
            <==> Undisturbed(seen, f, k)
  {
    DateIsOfWatchedStretch(marks, seen, emails, k);
    RecordedStretchIsRealExactly(seen, k, f);
    var s := Start(seen, k, false);
    assert s.Some? ==> seen[s.value].report && seen[f].report;
    assert s.Some? && s.value < f ==> seen[s.value].now < seen[f].now;
    assert s.Some? && s.value > f ==> seen[f].now < seen[s.value].now;
  }

  // ----- emails -----

  /** Exactly when the email goes out: at a divergent report that finds the alarm live, more than five minutes after the
      first such report of the stretch, when none has gone out since that one. */
  lemma EmailExactlyWhen(marks: seq<Mark>, seen: seq<Sight>, emails: seq<bool>, k: nat)
    requires IsWatch(marks, seen, emails) && k < |seen|
    ensures emails[k] <==>
            && Counts(seen[k], true) && seen[k].divergent && Start(seen, k, true).Some?
            && var f := Start(seen, k, true).value;
               seen[k].now - seen[f].now > 5 * MINUTE && !EmailedSince(emails, f, k)
  {
    DateIsOfWatchedStretch(marks, seen, emails, k);
    assert Marked(marks, seen, emails, k);
  }

  /** A stretch found live past five minutes has had its email. */
  lemma LongStretchIsReported(marks: seq<Mark>, seen: seq<Sight>, emails: seq<bool>, k: nat)
    requires IsWatch(marks, seen, emails) && k < |seen| && Counts(seen[k], true) && Start(seen, k + 1, true).Some?
    requires seen[k].now - seen[Start(seen, k + 1, true).value].now > 5 * MINUTE
    ensures EmailedSince(emails, Start(seen, k + 1, true).value, k + 1)
  {
    EmailExactlyWhen(marks, seen, emails, k);
    var f := Start(seen, k + 1, true).value;
    assert Start(seen, k, true) == Some(f);
    assert EmailedSince(emails, f, k + 1) <==> EmailedSince(emails, f, k) || emails[k];
  }

  /** Between two emails some report finds the alarm live and the gateways in agreement. */
  lemma AgreementBetweenEmails(marks: seq<Mark>, seen: seq<Sight>, emails: seq<bool>, i: nat, j: nat)
      returns (m: nat)
    requires IsWatch(marks, seen, emails) && i < j < |seen| && emails[i] && emails[j]
    ensures i < m < j && Counts(seen[m], true) && !seen[m].divergent
    ensures Start(seen, j, true).Some? && m < Start(seen, j, true).value
  {
    EmailExactlyWhen(marks, seen, emails, i);
    EmailExactlyWhen(marks, seen, emails, j);
    var f := Start(seen, j, true).value;
    assert !EmailedSince(emails, f, j) && emails[i];
    assert i < f;
    StartIs(seen, j, true, f);
    m := LastAgreement(seen, f, i);
  }

  /** After a divergent report found live, a stretch that starts later starts after an agreement found live. */
  lemma {:induction false} LastAgreement(seen: seq<Sight>, f: nat, i: nat) returns (m: nat)
    requires i < f <= |seen| && Counts(seen[i], true) && seen[i].divergent && Start(seen, f, true) == None
    ensures i < m < f && Counts(seen[m], true) && !seen[m].divergent
    decreases f
  {
    assert f > i + 1;
    if Counts(seen[f - 1], true) {
      m := f - 1;
    } else {
      m := LastAgreement(seen, f - 1, i);
    }
  }

  /** However the alarm was acknowledged meanwhile: one real stretch of disagreement has at most one email, and two
      emails are more than five minutes apart. */
  lemma OneEmailPerStretch(marks: seq<Mark>, seen: seq<Sight>, emails: seq<bool>, i: nat, j: nat)
    requires IsWatch(marks, seen, emails) && i < j < |seen| && emails[i] && emails[j]
    ensures seen[j].now - seen[i].now > 5 * MINUTE
    ensures Start(seen, j + 1, false) == None || Start(seen, j + 1, false).value > i
  {
    var m := AgreementBetweenEmails(marks, seen, emails, i, j);
    EmailExactlyWhen(marks, seen, emails, j);
    assert seen[i].now <= seen[Start(seen, j, true).value].now;
    var s := Start(seen, j + 1, false);
    if s.Some? {
      StartIs(seen, j + 1, false, s.value);
      assert Counts(seen[m], false);
    }
  }

  /** Where the recorded stretch is the real one, the email is what it is meant to be: it comes more than five minutes
      into an unbroken disagreement, at most once, and once that long it has come. */
  lemma DissensusEmailOncePerEpisode(marks: seq<Mark>, seen: seq<Sight>, emails: seq<bool>, k: nat, f: nat)
    requires IsWatch(marks, seen, emails) && k < |seen| && Counts(seen[k], true)
    requires Start(seen, k + 1, true) == Some(f) && Undisturbed(seen, f, k + 1)
    ensures Start(seen, k + 1, false) == Some(f) && marks[k + 1].since == Some(seen[f].now)
    ensures emails[k] ==> seen[k].now - seen[f].now > 5 * MINUTE && !EmailedSince(emails, f, k)
    ensures seen[k].now - seen[f].now > 5 * MINUTE <==> EmailedSince(emails, f, k + 1)
  {
    RecordedStretchIsRealExactly(seen, k + 1, f);
    DateIsOfWatchedStretch(marks, seen, emails, k + 1);
    EmailExactlyWhen(marks, seen, emails, k);
    if seen[k].now - seen[f].now > 5 * MINUTE {
      LongStretchIsReported(marks, seen, emails, k);
    }
    if EmailedSince(emails, f, k + 1) {
      var i :| f <= i < k + 1 && emails[i];
      EmailExactlyWhen(marks, seen, emails, i);
      SameStartWithin(seen, k + 1, f, i);
      assert seen[i].now <= seen[k].now || i == k;
    }
  }

  /** Inside a stretch, its start is the same at every step. */
  lemma SameStartWithin(seen: seq<Sight>, k: nat, f: nat, i: nat)
    requires k <= |seen| && Start(seen, k, true) == Some(f) && f <= i < k
    ensures if i == f then Start(seen, i, true) == None else Start(seen, i, true) == Some(f)
  {
    StartIs(seen, k, true, f);
    if i > f {
      StartIs(seen, i, true, f);
    }
  }

  // ----- the runs of the backend -----

  function MarkOf(db: Db, a: nat): Mark {
    if a < |db.alarms| then Mark(db.alarms[a].dissensusSince, db.alarms[a].dissensusEmailAt) else NO_MARK
  }

  /** The step that led to these tables, seen from alarm a of the site. */
  function SightOf(cfg: Config, site: string, a: nat, ev: Event, now: Time, after: Db): Sight {
    Sight(now, ev.Report? && SiteOr(ev.payloadSite, cfg.defaultSite) == site,
          SomeAlive(cfg, after.gateways, site, true, now) && SomeAlive(cfg, after.gateways, site, false, now),
          FirstLiveGatewayAlarm(after.alarms, site, 0) == Some(a))
  }

  /** Where a site has one unresolved alarm at most, the report watches the alarm exactly when it finds it live. */
  lemma WatchedMeansLive(alarms: seq<Alarm>, site: string, a: nat)
    requires OneOpenPerSite(alarms) && a < |alarms|
    ensures FirstLiveGatewayAlarm(alarms, site, 0) == Some(a) <==> LiveGatewayAlarm(alarms[a], site)
  {
    var first := FirstLiveGatewayAlarm(alarms, site, 0);
    if LiveGatewayAlarm(alarms[a], site) {
      OnlyOpen(alarms, site, a, first.value);
    }
  }

  lemma TargetsKeepMark(db: Db, targets: seq<Option<int>>, now: Time, a: nat)
    requires |targets| == |db.alarms|
    ensures MarkOf(ApplyTargets(db, targets, now), a) == MarkOf(db, a)
  {
  }

  lemma TickKeepsMark(cfg: Config, db: Db, now: Time, a: nat)
    ensures MarkOf(Tick(cfg, db, now), a) == MarkOf(db, a)
  {
    var mid := BeforeEscalation(cfg, db, now);
    TargetsKeepMark(mid, TimerTargets(cfg, mid, now), now, a);
    if a < |db.alarms| {
      assert mid.alarms[a] == Reactivate(db.alarms[a], now);
    }
  }

  lemma ResultKeepsMark(cfg: Config, db: Db, c: nat, r: CallResult, now: Time, a: nat)
    ensures MarkOf(PostCallResult(cfg, db, c, r, now), a) == MarkOf(db, a)
  {
    if c < |db.calls| && r == EscalateKey {
      var db1 := db.(calls := db.calls[c := CallAfter(db.calls[c], r, now)]);
      TargetsKeepMark(db1, KeyTargets(cfg, db1, db.calls[c].alarmId), now, a);
    }
  }

  lemma AnswerKeepsMark(cfg: Config, db: Db, ev: Event, now: Time, a: nat)
    requires !ev.LoopTick? && !ev.CallResultPosted? && !ev.AdminEscalate? && !ev.Report?
    ensures MarkOf(Step(cfg, db, ev, now), a) == MarkOf(db, a)
  {
  }

  lemma ReconcileKeepsMark(cfg: Config, db: Db, site: string, active: bool, now: Time, a: nat)
    ensures MarkOf(Reconcile(cfg, db, site, active, now), a) == MarkOf(db, a)
  {
  }

  /** Flagging touches the alarm it watches, by one step of the two dates. */
  lemma FlagIsMarkStep(db: Db, site: string, divergent: bool, now: Time, a: nat)
    ensures var after := FlagDissensus(db, site, divergent, now);
            var watched := FirstLiveGatewayAlarm(after.alarms, site, 0) == Some(a);
            MarkOf(after, a) == MarkStep(MarkOf(db, a), Sight(now, true, divergent, watched)).0
  {
    var after := FlagDissensus(db, site, divergent, now);
    FirstLiveUnchanged(db.alarms, after.alarms, site, 0);
  }

  /** A report of another site does not touch the alarm. */
  lemma OtherSiteKeepsMark(db: Db, other: string, divergent: bool, now: Time, a: nat)
    requires a < |db.alarms| ==> db.alarms[a].site != Some(other)
    ensures MarkOf(FlagDissensus(db, other, divergent, now), a) == MarkOf(db, a)
  {
  }

  lemma ReportIsMarkStep(cfg: Config, db: Db, g: string, open: bool, s: Option<string>, now: Time, site: string, a: nat)
    requires var alarms' := ReportState(cfg, db, g, open, s, now).alarms;
             a < |alarms'| ==> alarms'[a].site == Some(site)
    ensures var after := ReportState(cfg, db, g, open, s, now);
            MarkOf(after, a) == MarkStep(MarkOf(db, a), SightOf(cfg, site, a, Report(g, open, s), now, after)).0
  {
    var from, gateways := SiteOr(s, cfg.defaultSite), GatewaysAfter(cfg, db, g, open, s, now);
    var d0 := db.(gateways := gateways);
    var someOpen, someClosed := SomeAlive(cfg, gateways, from, true, now), SomeAlive(cfg, gateways, from, false, now);
    var d1 := Reconcile(cfg, d0, from, someOpen, now);
    ReconcileKeepsMark(cfg, d0, from, someOpen, now, a);
    FlagKeepsSites(d1, from, someOpen && someClosed, now);
    if from == site {
      FlagIsMarkStep(d1, site, someOpen && someClosed, now, a);
    } else {
      OtherSiteKeepsMark(d1, from, someOpen && someClosed, now, a);
    }
  }

  lemma FlagKeepsSites(db: Db, site: string, divergent: bool, now: Time)
    ensures var after := FlagDissensus(db, site, divergent, now);
            && after.gateways == db.gateways && |after.alarms| == |db.alarms|
            && forall i | 0 <= i < |db.alarms| :: after.alarms[i].site == db.alarms[i].site
  {
  }

  /** Every step of the backend is one step of the two dates. */
  lemma StepIsMarkStep(cfg: Config, db: Db, ev: Event, now: Time, site: string, a: nat)
    requires var alarms' := Step(cfg, db, ev, now).alarms; a < |alarms'| ==> alarms'[a].site == Some(site)
    ensures var after := Step(cfg, db, ev, now);
            MarkOf(after, a) == MarkStep(MarkOf(db, a), SightOf(cfg, site, a, ev, now, after)).0
  {
    match ev
    case LoopTick => TickKeepsMark(cfg, db, now, a);
    case AdminEscalate => TargetsKeepMark(db, AdminTargets(cfg, db), now, a);
    case CallResultPosted(c, r) => ResultKeepsMark(cfg, db, c, r, now, a);
    case Report(g, o, s) => ReportIsMarkStep(cfg, db, g, o, s, now, site, a);
    case _ => AnswerKeepsMark(cfg, db, ev, now, a);
  }

  function Marks(states: seq<Db>, a: nat): (r: seq<Mark>)
    ensures |r| == |states|
  {
    seq(|states|, k requires 0 <= k < |states| => MarkOf(states[k], a))
  }

  function Sights(cfg: Config, states: seq<Db>, run: seq<Moment>, site: string, a: nat): (r: seq<Sight>)
    requires |states| == |run| + 1
    ensures |r| == |run|
  {
    seq(|run|, k requires 0 <= k < |run| => SightOf(cfg, site, a, run[k].event, run[k].now, states[k + 1]))
  }

  /** The steps that send an email. */
  function Emails(cfg: Config, states: seq<Db>, run: seq<Moment>, site: string, a: nat): (r: seq<bool>)
    requires |states| == |run| + 1
    ensures |r| == |run|
  {
    seq(|run|, k requires 0 <= k < |run| =>
      MarkStep(MarkOf(states[k], a), SightOf(cfg, site, a, run[k].event, run[k].now, states[k + 1])).1)
  }

  lemma SiteAt(cfg: Config, states: seq<Db>, run: seq<Moment>, a: nat, k: nat)
    requires IsRun(cfg, states, run) && k < |run| && a < |states[k].alarms|
    ensures a < |states[k + 1].alarms| && states[k + 1].alarms[a].site == states[k].alarms[a].site
  {
    assert Stepped(cfg, states, run, k);
    StepKeepsIdentity(cfg, states[k], run[k].event, run[k].now, a);
  }

  lemma {:induction false} SiteThroughout(cfg: Config, states: seq<Db>, run: seq<Moment>, a: nat, k: nat)
    requires IsRun(cfg, states, run) && k <= |run| && a < |states[k].alarms|
    ensures a < |states[|run|].alarms| && states[|run|].alarms[a].site == states[k].alarms[a].site
    decreases |run| - k
  {
    if k < |run| {
      SiteAt(cfg, states, run, a, k);
      SiteThroughout(cfg, states, run, a, k + 1);
    }
  }

  lemma SiteKnown(cfg: Config, states: seq<Db>, run: seq<Moment>, site: string, a: nat, k: nat)
    requires IsRun(cfg, states, run) && k <= |run|
    requires a < |states[|run|].alarms| && states[|run|].alarms[a].site == Some(site)
    ensures a < |states[k].alarms| ==> states[k].alarms[a].site == Some(site)
  {
    if a < |states[k].alarms| {
      SiteThroughout(cfg, states, run, a, k);
    }
  }

  lemma MarkStepAt(cfg: Config, states: seq<Db>, run: seq<Moment>, site: string, a: nat, k: nat)
    requires IsRun(cfg, states, run) && k < |run|
    requires a < |states[|run|].alarms| && states[|run|].alarms[a].site == Some(site)
    ensures MarkOf(states[k + 1], a)
            == MarkStep(MarkOf(states[k], a), SightOf(cfg, site, a, run[k].event, run[k].now, states[k + 1])).0
  {
    SiteKnown(cfg, states, run, site, a, k + 1);
    assert Stepped(cfg, states, run, k);
    StepIsMarkStep(cfg, states[k], run[k].event, run[k].now, site, a);
  }

  lemma MarkedWhenStepped(cfg: Config, states: seq<Db>, run: seq<Moment>, site: string, a: nat, k: nat)
    requires |states| == |run| + 1 && k < |run|
    requires MarkOf(states[k + 1], a)
             == MarkStep(MarkOf(states[k], a), SightOf(cfg, site, a, run[k].event, run[k].now, states[k + 1])).0
    ensures Marked(Marks(states, a), Sights(cfg, states, run, site, a), Emails(cfg, states, run, site, a), k)
  {
  }

  lemma MarkedAt(cfg: Config, states: seq<Db>, run: seq<Moment>, site: string, a: nat, k: nat)
    requires IsRun(cfg, states, run) && k < |run|
    requires a < |states[|run|].alarms| && states[|run|].alarms[a].site == Some(site)
    ensures Marked(Marks(states, a), Sights(cfg, states, run, site, a), Emails(cfg, states, run, site, a), k)
  {
    MarkStepAt(cfg, states, run, site, a, k);
    MarkedWhenStepped(cfg, states, run, site, a, k);
  }

  /** Any run of the backend in which the alarm is created, or starts unmarked, is watched as above: everything proved of
      marks, reports and emails holds of its two dates. */
  lemma RunIsWatch(cfg: Config, states: seq<Db>, run: seq<Moment>, site: string, a: nat)
    requires IsRun(cfg, states, run) && TimeFlows(run) && MarkOf(states[0], a) == NO_MARK
    requires a < |states[|run|].alarms| && states[|run|].alarms[a].site == Some(site)
    ensures IsWatch(Marks(states, a), Sights(cfg, states, run, site, a), Emails(cfg, states, run, site, a))
  {
    var seen := Sights(cfg, states, run, site, a);
    forall k: nat | k < |run| ensures Marked(Marks(states, a), seen, Emails(cfg, states, run, site, a), k) {
      MarkedAt(cfg, states, run, site, a, k);
    }
    SightTimes(cfg, states, run, site, a);
  }

  lemma SightTimes(cfg: Config, states: seq<Db>, run: seq<Moment>, site: string, a: nat)
    requires |states| == |run| + 1 && TimeFlows(run)
    ensures var seen := Sights(cfg, states, run, site, a);
            forall i, j | 0 <= i < j < |seen| :: seen[i].now <= seen[j].now
  {
    var seen := Sights(cfg, states, run, site, a);
    forall i, j | 0 <= i < j < |seen| ensures seen[i].now <= seen[j].now {
      assert seen[i].now == run[i].now && seen[j].now == run[j].now;
    }
  }

  lemma EmailShows(m: Mark, s: Sight)
    ensures MarkStep(m, s).1 <==> m.emailAt == None && MarkStep(m, s).0.emailAt == Some(s.now)
  {
  }

  /** An email is sent at exactly the steps that date it. */
  lemma EmailIsDated(cfg: Config, states: seq<Db>, run: seq<Moment>, site: string, a: nat, k: nat)
    requires IsRun(cfg, states, run) && k < |run|
    requires a < |states[|run|].alarms| && states[|run|].alarms[a].site == Some(site)
    ensures Emails(cfg, states, run, site, a)[k] <==>
              MarkOf(states[k], a).emailAt == None && MarkOf(states[k + 1], a).emailAt == Some(run[k].now)
  {
    MarkStepAt(cfg, states, run, site, a, k);
    EmailShows(MarkOf(states[k], a), SightOf(cfg, site, a, run[k].event, run[k].now, states[k + 1]));
  }

  // ----- a run in which the recorded date is not the real one -----

  const SITE := "izeron"
  const WITNESS_CFG := Config([Entry(1, 1)], [User(1, None)], 15 * MINUTE, 2 * MINUTE, SITE, {SITE}, 15 * SECOND)

  /** The instants of the run: a disagreement begins, an acknowledgement hides its end, the thirty minutes pass, another
      disagreement begins unseen, and the tick brings the alarm back. */
  const RESUME: Time := 30 * MINUTE

  const WITNESS_RUN: seq<Moment> := [
    Moment(0, Report("A", true, None)),
    Moment(1 * SECOND, Report("B", false, None)),
    Moment(2 * SECOND, Ack(0, 1)),
    Moment(3 * SECOND, Report("B", true, None)),
    Moment(RESUME, Report("A", true, None)),
    Moment(RESUME + 1 * SECOND, Report("B", false, None)),
    Moment(RESUME + 3 * SECOND, LoopTick),
    Moment(RESUME + 4 * SECOND, Report("A", true, None))]

  function Heard(open: bool, at: Time): Gateway { Gateway(open, at, Some(SITE)) }

  /** The one alarm of the run. */
  function TheAlarm(since: Option<Time>, emailAt: Option<Time>): Alarm {
    FreshAlarm(GATEWAY_TITLE, Some(1), GatewayDryContact, SITE, 0).(dissensusSince := since, dissensusEmailAt := emailAt)
  }

  function WitnessDb(a: Alarm, notifiedAt: Time, gateways: map<string, Gateway>): Db {
    Db([a], [NewNotification(0, 1, notifiedAt)], [], [], gateways)
  }

  function Acked(): Alarm { AckAlarm(TheAlarm(Some(1 * SECOND), None), 1, 2 * SECOND) }

  function BackAgain(emailAt: Option<Time>): Alarm {
    Acked().(status := Active, suspendedUntil := None, createdAt := RESUME + 3 * SECOND, dissensusEmailAt := emailAt)
  }

  function WitnessStates(): seq<Db> {
    var a0, b1 := Heard(true, 0), Heard(false, 1 * SECOND);
    var b3, a4 := Heard(true, 3 * SECOND), Heard(true, RESUME);
    var b5, a7 := Heard(false, RESUME + 1 * SECOND), Heard(true, RESUME + 4 * SECOND);
    [Db([], [], [], [], map[]),
     WitnessDb(TheAlarm(None, None), 0, map["A" := a0]),
     WitnessDb(TheAlarm(Some(1 * SECOND), None), 0, map["A" := a0, "B" := b1]),
     WitnessDb(Acked(), 0, map["A" := a0, "B" := b1]),
     WitnessDb(Acked(), 0, map["A" := a0, "B" := b3]),
     WitnessDb(Acked(), 0, map["A" := a4, "B" := b3]),
     WitnessDb(Acked(), 0, map["A" := a4, "B" := b5]),
     WitnessDb(BackAgain(None), RESUME + 3 * SECOND, map["A" := a4, "B" := b5]),
     WitnessDb(BackAgain(Some(RESUME + 4 * SECOND)), RESUME + 3 * SECOND, map["A" := a7, "B" := b5])]
  }

  /** Whether the two gateways of the run, where heard of, are alive and in which state. */
  lemma TwoGateways(gateways: map<string, Gateway>, open: bool, now: Time)
    requires forall id | id in gateways :: id == "A" || id == "B"
    ensures SomeAlive(WITNESS_CFG, gateways, SITE, open, now) <==>
              || ("A" in gateways && AliveAt(WITNESS_CFG, gateways["A"], SITE, now) && gateways["A"].open == open)
              || ("B" in gateways && AliveAt(WITNESS_CFG, gateways["B"], SITE, now) && gateways["B"].open == open)
  {
  }

  /** A report on tables that hold the one alarm. */
  lemma WitnessReport(a: Alarm, at: Time, gateways: map<string, Gateway>, g: string, open: bool, now: Time)
    requires (g == "A" || g == "B") && forall id | id in gateways :: id == "A" || id == "B"
    requires a.site == Some(SITE) && a.source == GatewayDryContact && Unresolved(a)
    requires var after := gateways[g := Heard(open, now)]; SomeAlive(WITNESS_CFG, after, SITE, true, now)
    ensures var after := gateways[g := Heard(open, now)];
            ReportState(WITNESS_CFG, WitnessDb(a, at, gateways), g, open, None, now)
            == WitnessDb(if Live(a) then DissensusMark(a, SomeAlive(WITNESS_CFG, after, SITE, false, now), now) else a,
                         at, after)
  {
    var after := gateways[g := Heard(open, now)];
    var db := WitnessDb(a, at, after);
    assert OpenAt(db.alarms[0], SITE) && FirstOpen(db.alarms, SITE) == Some(0);
    assert FirstLiveGatewayAlarm(db.alarms, SITE, 0) == if Live(a) then Some(0) else None;
    assert Reconcile(WITNESS_CFG, db, SITE, true, now) == db;
  }

  lemma WitnessCreation()
    ensures Step(WITNESS_CFG, WitnessStates()[0], Report("A", true, None), 0) == WitnessStates()[1]
  {
    var gateways := map["A" := Heard(true, 0)];
    TwoGateways(gateways, true, 0);
    TwoGateways(gateways, false, 0);
    var d0 := Db([], [], [], [], gateways);
    assert map[]["A" := Heard(true, 0)] == gateways;
    assert FirstOpen(d0.alarms, SITE) == None;
    var d1 := Reconcile(WITNESS_CFG, d0, SITE, true, 0);
    assert d1 == WitnessDb(TheAlarm(None, None), 0, gateways);
    assert FlagDissensus(d1, SITE, false, 0) == d1;
  }

  lemma WitnessReportTo(a: Alarm, at: Time, gateways: map<string, Gateway>, g: string, open: bool, now: Time,
                        after: map<string, Gateway>, b: Alarm, divergent: bool)
    requires (g == "A" || g == "B") && forall id | id in gateways :: id == "A" || id == "B"
    requires a.site == Some(SITE) && a.source == GatewayDryContact && Unresolved(a)
    requires after == gateways[g := Heard(open, now)]
    requires exists id | id in after :: AliveAt(WITNESS_CFG, after[id], SITE, now) && after[id].open
    requires divergent == exists id | id in after :: AliveAt(WITNESS_CFG, after[id], SITE, now) && !after[id].open
    requires b == if Live(a) then DissensusMark(a, divergent, now) else a
    ensures Step(WITNESS_CFG, WitnessDb(a, at, gateways), Report(g, open, None), now) == WitnessDb(b, at, after)
  {
    assert SomeAlive(WITNESS_CFG, after, SITE, true, now);
    assert SomeAlive(WITNESS_CFG, after, SITE, false, now) == divergent;
    WitnessReport(a, at, gateways, g, open, now);
  }

  lemma WitnessReport1()
    ensures Step(WITNESS_CFG, WitnessStates()[1], Report("B", false, None), 1 * SECOND) == WitnessStates()[2]
  {
    var after := map["A" := Heard(true, 0), "B" := Heard(false, 1 * SECOND)];
    assert AliveAt(WITNESS_CFG, after["A"], SITE, 1 * SECOND) && AliveAt(WITNESS_CFG, after["B"], SITE, 1 * SECOND);
    WitnessReportTo(TheAlarm(None, None), 0, map["A" := Heard(true, 0)], "B", false, 1 * SECOND, after,
                    TheAlarm(Some(1 * SECOND), None), true);
  }

  lemma WitnessReport3()
    ensures Step(WITNESS_CFG, WitnessStates()[3], Report("B", true, None), 3 * SECOND) == WitnessStates()[4]
  {
    var after := map["A" := Heard(true, 0), "B" := Heard(true, 3 * SECOND)];
    assert AliveAt(WITNESS_CFG, after["B"], SITE, 3 * SECOND);
    WitnessReportTo(Acked(), 0, map["A" := Heard(true, 0), "B" := Heard(false, 1 * SECOND)], "B", true, 3 * SECOND, after,
                    Acked(), false);
  }

  lemma WitnessReport4()
    ensures Step(WITNESS_CFG, WitnessStates()[4], Report("A", true, None), RESUME) == WitnessStates()[5]
  {
    var after := map["A" := Heard(true, RESUME), "B" := Heard(true, 3 * SECOND)];
    assert AliveAt(WITNESS_CFG, after["A"], SITE, RESUME);
    WitnessReportTo(Acked(), 0, map["A" := Heard(true, 0), "B" := Heard(true, 3 * SECOND)], "A", true, RESUME, after,
                    Acked(), false);
  }

  lemma WitnessReport5()
    ensures Step(WITNESS_CFG, WitnessStates()[5], Report("B", false, None), RESUME + 1 * SECOND) == WitnessStates()[6]
  {
    var now := RESUME + 1 * SECOND;
    var after := map["A" := Heard(true, RESUME), "B" := Heard(false, now)];
    assert AliveAt(WITNESS_CFG, after["A"], SITE, now) && AliveAt(WITNESS_CFG, after["B"], SITE, now);
    WitnessReportTo(Acked(), 0, map["A" := Heard(true, RESUME), "B" := Heard(true, 3 * SECOND)], "B", false, now, after,
                    Acked(), true);
  }

  lemma WitnessReport7()
    ensures Step(WITNESS_CFG, WitnessStates()[7], Report("A", true, None), RESUME + 4 * SECOND) == WitnessStates()[8]
  {
    var now := RESUME + 4 * SECOND;
    var b5 := Heard(false, RESUME + 1 * SECOND);
    var after := map["A" := Heard(true, now), "B" := b5];
    assert AliveAt(WITNESS_CFG, after["A"], SITE, now) && AliveAt(WITNESS_CFG, after["B"], SITE, now);
    WitnessReportTo(BackAgain(None), RESUME + 3 * SECOND, map["A" := Heard(true, RESUME), "B" := b5], "A", true, now, after,
                    BackAgain(Some(now)), true);
  }

  lemma WitnessTick()
    ensures Step(WITNESS_CFG, WitnessStates()[6], LoopTick, RESUME + 3 * SECOND) == WitnessStates()[7]
  {
    var db, now := WitnessStates()[6], RESUME + 3 * SECOND;
    var d1 := ExpireAcks(db, now);
    assert d1 == WitnessStates()[7];
    assert CancelObsolete(WITNESS_CFG, d1) == d1;
    assert TimerTargets(WITNESS_CFG, d1, now) == [None];
    assert EscalateByTimer(WITNESS_CFG, d1, now) == d1 by {
      assert NotifyTargets(d1.notifs, [None], now) == NotifyTargets(d1.notifs, [], now);
    }
    assert MarkAll(WITNESS_CFG, d1.alarms, d1.notifs, now) == d1.notifs;
    assert d1.notifs[..0] == [] && !ContactDue(WITNESS_CFG, d1.alarms, d1.notifs[0], now);
    assert NewSms(WITNESS_CFG, d1, d1.notifs, now) == [];
    assert NewCalls(WITNESS_CFG, d1, d1.notifs, now) == [];
  }

  lemma WitnessAck()
    ensures Step(WITNESS_CFG, WitnessStates()[2], Ack(0, 1), 2 * SECOND) == WitnessStates()[3]
  {
    var db := WitnessStates()[2];
    assert db.notifs[0] in db.notifs;
  }

  /** From empty tables: the gateways disagree for two seconds, agree for half an hour while the alarm is acknowledged, and
      disagree again three seconds before a report finds the alarm live: the email goes out at once, dated from the first
      disagreement. */
  lemma RecordedDateCanBeStale() returns (states: seq<Db>, run: seq<Moment>)
    ensures IsRun(WITNESS_CFG, states, run) && |run| == 8 && states[0] == Db([], [], [], [], map[])
    ensures var seen := Sights(WITNESS_CFG, states, run, SITE, 0);
            && Start(seen, 8, true) == Some(1) && Start(seen, 8, false) == Some(5)
            && seen[7].now - seen[5].now == 3 * SECOND
    ensures Emails(WITNESS_CFG, states, run, SITE, 0)[7]
    ensures states[8].alarms[0].dissensusSince == Some(1 * SECOND)
  {
    states, run := WitnessStates(), WITNESS_RUN;
    WitnessIsRun();
    WitnessSights();
    EmailIsDated(WITNESS_CFG, states, run, SITE, 0, 7);
  }

  lemma WitnessSteps(k: nat)
    requires k < 8
    ensures Stepped(WITNESS_CFG, WitnessStates(), WITNESS_RUN, k)
  {
    WitnessCreation();
    WitnessReport1();
    WitnessAck();
    WitnessReport3();
    WitnessReport4();
    WitnessReport5();
    WitnessTick();
    WitnessReport7();
  }

  lemma WitnessIsRun()
    ensures IsRun(WITNESS_CFG, WitnessStates(), WITNESS_RUN)
  {
    forall k | 0 <= k < 8 ensures Stepped(WITNESS_CFG, WitnessStates(), WITNESS_RUN, k) {
      WitnessSteps(k);
    }
  }

  lemma WitnessSights()
    ensures var seen := Sights(WITNESS_CFG, WitnessStates(), WITNESS_RUN, SITE, 0);
            Start(seen, 8, true) == Some(1) && Start(seen, 8, false) == Some(5)
  {
    var states, run := WitnessStates(), WITNESS_RUN;
    var seen := Sights(WITNESS_CFG, states, run, SITE, 0);
    forall k | 0 <= k < 8
      ensures seen[k].report == (k != 2 && k != 6)
      ensures seen[k].report ==> seen[k].divergent == (k == 1 || k == 5 || k == 7)
      ensures seen[k].watched == (k < 2 || k >= 6)
    {
      WitnessSight(k);
    }
    assert Start(seen, 1, true) == None && Start(seen, 2, true) == Some(1) && Start(seen, 3, true) == Some(1);
    assert Start(seen, 4, true) == Some(1) && Start(seen, 5, true) == Some(1) && Start(seen, 6, true) == Some(1);
    assert Start(seen, 7, true) == Some(1);
    assert Start(seen, 5, false) == None && Start(seen, 6, false) == Some(5) && Start(seen, 7, false) == Some(5);
  }

  lemma WitnessSight(k: nat)
    requires k < 8
    ensures var s := SightOf(WITNESS_CFG, SITE, 0, WITNESS_RUN[k].event, WITNESS_RUN[k].now, WitnessStates()[k + 1]);
            && s.report == (k != 2 && k != 6)
            && (s.report ==> s.divergent == (k == 1 || k == 5 || k == 7))
            && s.watched == (k < 2 || k >= 6)
  {
    var after, now := WitnessStates()[k + 1], WITNESS_RUN[k].now;
    TwoGateways(after.gateways, true, now);
    TwoGateways(after.gateways, false, now);
  }
}
