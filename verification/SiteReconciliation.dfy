/** Gateways report the level of a contact, and the backend makes the site's alarm follow it. */
module SiteReconciliation {
  import opened Basics
  import opened EscalationChain
  import opened AlarmTables
  import opened AlarmSteps
  import opened EscalationRuns

  // ----- one unresolved alarm per site -----

  ghost predicate SameSiteOpen(x: Alarm, y: Alarm) {
    Unresolved(x) && Unresolved(y) && x.site.Some? && x.site == y.site
  }

  ghost predicate OneOpenPerSite(alarms: seq<Alarm>) {
    forall i, j | 0 <= i < j < |alarms| :: !SameSiteOpen(alarms[i], alarms[j])
  }

  ghost predicate HasOpen(alarms: seq<Alarm>, site: string) {
    exists i | 0 <= i < |alarms| :: OpenAt(alarms[i], site)
  }

  /** An alarm sent by hand is open on the site. */
  ghost predicate HandSentOpen(alarms: seq<Alarm>, site: string) {
    exists i | 0 <= i < |alarms| :: OpenAt(alarms[i], site) && alarms[i].source == Api
  }

  /** Some other alarm of the site of alarm a is unresolved. */
  ghost predicate SiteTaken(alarms: seq<Alarm>, a: nat)
    requires a < |alarms|
  {
    alarms[a].site.Some?
    && exists j | 0 <= j < |alarms| && j != a :: OpenAt(alarms[j], alarms[a].site.value)
  }

  /** The steps that bring a resolved alarm back: an acknowledgement, or phone key "2" with somebody to go to. */
  ghost predicate Reopens(cfg: Config, db: Db, ev: Event, a: nat)
    requires a < |db.alarms|
  {
    db.alarms[a].status == Resolved
    && match ev
       case Ack(x, u) => x == a && Notified(db.notifs, a, u)
       case CallResultPosted(c, r) =>
         c < |db.calls| && db.calls[c].alarmId == a && r == EscalateKey && NextKnown(cfg, db.alarms[a]).Some?
       case _ => false
  }

  /** The steps that give a site a second unresolved alarm. */
  ghost predicate Doubles(cfg: Config, db: Db, ev: Event) {
    || (ev.Send? && SendAllowed(cfg, db, ev.site) && HasOpen(db.alarms, ev.site))
    || exists a | 0 <= a < |db.alarms| :: Reopens(cfg, db, ev, a) && SiteTaken(db.alarms, a)
  }

  // ----- the reconciliation itself -----

  lemma MarkKeepsLevel(db: Db, site: string, divergent: bool, now: Time)
    ensures var db' := FlagDissensus(db, site, divergent, now);
            && db'.gateways == db.gateways && db'.notifs == db.notifs && |db'.alarms| == |db.alarms|
            && forall i | 0 <= i < |db.alarms| ::
                 && SameIdentity(db.alarms[i], db'.alarms[i]) && db'.alarms[i].status == db.alarms[i].status
                 && (db.alarms[i].site != Some(site) ==> db'.alarms[i] == db.alarms[i])
  {
  }

  lemma ReconcileSetsLevel(cfg: Config, db: Db, site: string, active: bool, now: Time)
    requires OneOpenPerSite(db.alarms)
    ensures var db' := Reconcile(cfg, db, site, active, now);
            && OneOpenPerSite(db'.alarms)
            && |db'.alarms| >= |db.alarms| && db'.gateways == db.gateways
            && (HasOpen(db'.alarms, site) <==>
                  active || HandSentOpen(db.alarms, site))
            && (forall i | 0 <= i < |db.alarms| ::
                  SameIdentity(db.alarms[i], db'.alarms[i])
                  && (db.alarms[i].site != Some(site) ==> db'.alarms[i] == db.alarms[i]))
            && (forall i | |db.alarms| <= i < |db'.alarms| :: db'.alarms[i].site == Some(site))
            && (active && HasOpen(db.alarms, site) ==> db' == db)
  {
    var first := FirstOpen(db.alarms, site);
    var db' := Reconcile(cfg, db, site, active, now);
    if active && first.None? {
      assert OpenAt(db'.alarms[|db.alarms|], site);
    } else if !active && first.Some? {
      forall i | 0 <= i < |db.alarms| && OpenAt(db.alarms[i], site) ensures i == first.value {
        OnlyOpen(db.alarms, site, i, first.value);
      }
      assert db.alarms[first.value].source == Api ==> db'.alarms == db.alarms;
    }
  }

  /** Gateways after a report, as the reconciliation sees them. */
  function GatewaysAfter(cfg: Config, db: Db, g: string, open: bool, s: Option<string>, now: Time): map<string, Gateway> {
    db.gateways[g := Gateway(open, now, Some(SiteOr(s, cfg.defaultSite)))]
  }

  /** After a report, whatever came before it, the site has an unresolved alarm exactly when one of its gateways
      seen within the window is open, or an alarm sent by hand was already there; a second alarm never appears, and
      the alarms of the other sites are untouched. */
  lemma ReportSetsLevel(cfg: Config, db: Db, g: string, open: bool, s: Option<string>, now: Time)
    requires OneOpenPerSite(db.alarms)
    ensures var site, db' := SiteOr(s, cfg.defaultSite), ReportState(cfg, db, g, open, s, now);
            && OneOpenPerSite(db'.alarms)
            && db'.gateways == GatewaysAfter(cfg, db, g, open, s, now)
            && (HasOpen(db'.alarms, site) <==>
                  || SomeAlive(cfg, db'.gateways, site, true, now)
                  || HandSentOpen(db.alarms, site))
            && |db'.alarms| >= |db.alarms|
            && (forall i | 0 <= i < |db.alarms| ::
                  SameIdentity(db.alarms[i], db'.alarms[i])
                  && (db.alarms[i].site != Some(site) ==> db'.alarms[i] == db.alarms[i]))
            && (forall i | |db.alarms| <= i < |db'.alarms| :: db'.alarms[i].site == Some(site))
  {
    var site, gateways := SiteOr(s, cfg.defaultSite), GatewaysAfter(cfg, db, g, open, s, now);
    var d0 := db.(gateways := gateways);
    var someOpen, someClosed := SomeAlive(cfg, gateways, site, true, now), SomeAlive(cfg, gateways, site, false, now);
    ReconcileSetsLevel(cfg, d0, site, someOpen, now);
    var d1 := Reconcile(cfg, d0, site, someOpen, now);
    MarkKeepsLevel(d1, site, someOpen && someClosed, now);
    var db' := FlagDissensus(d1, site, someOpen && someClosed, now);
    SameLevel(d1.alarms, db'.alarms, site);
  }

  lemma SameLevel(x: seq<Alarm>, y: seq<Alarm>, site: string)
    requires |x| == |y|
    requires forall i | 0 <= i < |x| :: y[i].site == x[i].site && (Unresolved(y[i]) <==> Unresolved(x[i]))
    ensures HasOpen(x, site) <==> HasOpen(y, site)
    ensures OneOpenPerSite(x) <==> OneOpenPerSite(y)
  {
    if HasOpen(x, site) {
      var i :| 0 <= i < |x| && OpenAt(x[i], site);
      assert OpenAt(y[i], site);
    }
    if HasOpen(y, site) {
      var i :| 0 <= i < |y| && OpenAt(y[i], site);
      assert OpenAt(x[i], site);
    }
    if OneOpenPerSite(x) {
      forall i, j | 0 <= i < j < |y| ensures !SameSiteOpen(y[i], y[j]) { assert !SameSiteOpen(x[i], x[j]); }
    }
    if OneOpenPerSite(y) {
      forall i, j | 0 <= i < j < |x| ensures !SameSiteOpen(x[i], x[j]) { assert !SameSiteOpen(y[i], y[j]); }
    }
  }

  /** Repeating a report at the same instant changes nothing at all, the dissensus flag included. */
  lemma RepeatedReportIsNoOp(cfg: Config, db: Db, g: string, open: bool, s: Option<string>, now: Time)
    requires OneOpenPerSite(db.alarms)
    ensures var once := ReportState(cfg, db, g, open, s, now);
            ReportState(cfg, once, g, open, s, now) == once
  {
    var site, gateways := SiteOr(s, cfg.defaultSite), GatewaysAfter(cfg, db, g, open, s, now);
    var d0 := db.(gateways := gateways);
    var someOpen, someClosed := SomeAlive(cfg, gateways, site, true, now), SomeAlive(cfg, gateways, site, false, now);
    var divergent := someOpen && someClosed;
    var d1 := Reconcile(cfg, d0, site, someOpen, now);
    var once := FlagDissensus(d1, site, divergent, now);
    assert once == ReportState(cfg, db, g, open, s, now);
    ReconcileSetsLevel(cfg, d0, site, someOpen, now);
    MarkKeepsLevel(d1, site, divergent, now);
    SameLevel(d1.alarms, once.alarms, site);
    assert once.gateways[g := Gateway(open, now, Some(site))] == once.gateways;
    ReconcileAgain(cfg, d0, d1, once, site, someOpen, now);
    FlagAgain(d1, site, divergent, now);
  }

  lemma ReconcileAgain(cfg: Config, d0: Db, d1: Db, once: Db, site: string, active: bool, now: Time)
    requires OneOpenPerSite(d0.alarms) && d1 == Reconcile(cfg, d0, site, active, now)
    requires OneOpenPerSite(once.alarms) && |once.alarms| == |d1.alarms|
    requires forall i | 0 <= i < |d1.alarms| ::
               SameIdentity(d1.alarms[i], once.alarms[i]) && once.alarms[i].status == d1.alarms[i].status
    ensures Reconcile(cfg, once, site, active, now) == once
  {
    ReconcileSetsLevel(cfg, d0, site, active, now);
    SameLevel(d1.alarms, once.alarms, site);
    var first := FirstOpen(once.alarms, site);
    if active {
      assert HasOpen(once.alarms, site);
    } else if first.Some? {
      assert OpenAt(d1.alarms[first.value], site);
      assert HasOpen(d1.alarms, site);
      var i :| 0 <= i < |d0.alarms| && OpenAt(d0.alarms[i], site) && d0.alarms[i].source == Api;
      assert d1 == d0 by { OnlyOpen(d0.alarms, site, i, FirstOpen(d0.alarms, site).value); }
      OnlyOpen(d0.alarms, site, i, first.value);
    }
  }

  lemma OnlyOpen(alarms: seq<Alarm>, site: string, i: nat, j: nat)
    requires OneOpenPerSite(alarms) && i < |alarms| && j < |alarms|
    requires OpenAt(alarms[i], site) && OpenAt(alarms[j], site)
    ensures i == j
  {
    assert SameSiteOpen(alarms[i], alarms[j]) && SameSiteOpen(alarms[j], alarms[i]);
  }

  lemma FlagAgain(db: Db, site: string, divergent: bool, now: Time)
    ensures var once := FlagDissensus(db, site, divergent, now);
            FlagDissensus(once, site, divergent, now) == once
  {
    var i := FirstLiveGatewayAlarm(db.alarms, site, 0);
    if i.Some? {
      var once := FlagDissensus(db, site, divergent, now);
      FirstLiveUnchanged(db.alarms, once.alarms, site, 0);
      assert once.alarms[i.value := once.alarms[i.value]] == once.alarms;
    }
  }

  lemma {:induction false} FirstLiveUnchanged(x: seq<Alarm>, y: seq<Alarm>, site: string, from: nat)
    requires |x| == |y| && from <= |x|
    requires forall i | 0 <= i < |x| :: LiveGatewayAlarm(x[i], site) <==> LiveGatewayAlarm(y[i], site)
    ensures FirstLiveGatewayAlarm(x, site, from) == FirstLiveGatewayAlarm(y, site, from)
    decreases |x| - from
  {
    if from < |x| {
      FirstLiveUnchanged(x, y, site, from + 1);
    }
  }

  /** A report never resolves an alarm sent by hand, and never creates one. */
  lemma HandSentStays(cfg: Config, db: Db, g: string, open: bool, s: Option<string>, now: Time)
    requires OneOpenPerSite(db.alarms)
    ensures var site, db' := SiteOr(s, cfg.defaultSite), ReportState(cfg, db, g, open, s, now);
            HandSentOpen(db'.alarms, site) <==> HandSentOpen(db.alarms, site)
  {
    var site, db' := SiteOr(s, cfg.defaultSite), ReportState(cfg, db, g, open, s, now);
    ReportSetsLevel(cfg, db, g, open, s, now);
    forall i | 0 <= i < |db'.alarms| && db'.alarms[i].source == Api
      ensures i < |db.alarms| && db'.alarms[i].status == db.alarms[i].status
    {
      ReportTouches(cfg, db, g, open, s, now, i);
    }
    if HandSentOpen(db.alarms, site) {
      var i :| 0 <= i < |db.alarms| && OpenAt(db.alarms[i], site) && db.alarms[i].source == Api;
      assert OpenAt(db'.alarms[i], site) && db'.alarms[i].source == Api;
    }
    if HandSentOpen(db'.alarms, site) {
      var i :| 0 <= i < |db'.alarms| && OpenAt(db'.alarms[i], site) && db'.alarms[i].source == Api;
      assert OpenAt(db.alarms[i], site) && db.alarms[i].source == Api;
    }
  }

  lemma ReportTouches(cfg: Config, db: Db, g: string, open: bool, s: Option<string>, now: Time, i: nat)
    requires i < |ReportState(cfg, db, g, open, s, now).alarms|
    ensures var y := ReportState(cfg, db, g, open, s, now).alarms[i];
            y.source == Api ==> i < |db.alarms| && y.status == db.alarms[i].status && y.source == db.alarms[i].source
  {
  }

  /** Two gateways of a site report at one instant: the gateway table, and whether the site is in alarm, come out
      symmetric in the two reports, so their order does not matter. */
  lemma ReportOrderDoesNotMatter(cfg: Config, db: Db, g: string, x: bool, h: string, y: bool, s: Option<string>, now: Time)
    requires OneOpenPerSite(db.alarms) && g != h
    ensures var site := SiteOr(s, cfg.defaultSite);
            var a, b := Gateway(x, now, Some(site)), Gateway(y, now, Some(site));
            var last := ReportState(cfg, ReportState(cfg, db, g, x, s, now), h, y, s, now);
            && last.gateways == db.gateways[g := a][h := b] == db.gateways[h := b][g := a]
            && (HasOpen(last.alarms, site) <==>
                  SomeAlive(cfg, last.gateways, site, true, now) || HandSentOpen(db.alarms, site))
  {
    ReportSetsLevel(cfg, db, g, x, s, now);
    HandSentStays(cfg, db, g, x, s, now);
    ReportSetsLevel(cfg, ReportState(cfg, db, g, x, s, now), h, y, s, now);
  }

  // ----- which steps keep one alarm per site, exactly -----

  lemma TickKeepsResolved(cfg: Config, db: Db, now: Time, a: nat)
    requires a < |db.alarms| && db.alarms[a].status == Resolved
    ensures a < |Tick(cfg, db, now).alarms| && Tick(cfg, db, now).alarms[a].status == Resolved
  {
    TickEvolves(cfg, db, now, a);
    BeforeEscalationStays(cfg, db, now, a);
  }

  lemma ReportKeepsResolved(cfg: Config, db: Db, g: string, open: bool, s: Option<string>, now: Time, a: nat)
    requires a < |db.alarms| && db.alarms[a].status == Resolved
    ensures var alarms' := ReportState(cfg, db, g, open, s, now).alarms;
            a < |alarms'| && alarms'[a].status == Resolved
  {
  }

  lemma ResultReopens(cfg: Config, db: Db, c: nat, r: CallResult, now: Time, a: nat)
    requires a < |db.alarms| && db.alarms[a].status == Resolved
    ensures var alarms' := PostCallResult(cfg, db, c, r, now).alarms;
            a < |alarms'| && (alarms'[a].status != Resolved <==> Reopens(cfg, db, CallResultPosted(c, r), a))
  {
  }

  lemma OthersReopen(cfg: Config, db: Db, ev: Event, now: Time, a: nat)
    requires a < |db.alarms| && db.alarms[a].status == Resolved
    requires !ev.LoopTick? && !ev.Report? && !ev.CallResultPosted?
    ensures var alarms' := Step(cfg, db, ev, now).alarms;
            a < |alarms'| && (alarms'[a].status != Resolved <==> Reopens(cfg, db, ev, a))
  {
  }

  /** No step re-opens an alarm except the two that do not look at its status. */
  lemma StepOpens(cfg: Config, db: Db, ev: Event, now: Time, a: nat)
    requires a < |db.alarms|
    ensures a < |Step(cfg, db, ev, now).alarms|
    ensures SameIdentity(db.alarms[a], Step(cfg, db, ev, now).alarms[a])
    ensures db.alarms[a].status == Resolved ==>
              (Step(cfg, db, ev, now).alarms[a].status != Resolved <==> Reopens(cfg, db, ev, a))
  {
    StepKeepsIdentity(cfg, db, ev, now, a);
    if db.alarms[a].status == Resolved {
      match ev
      case LoopTick => TickKeepsResolved(cfg, db, now, a);
      case Report(g, o, s) => ReportKeepsResolved(cfg, db, g, o, s, now, a);
      case CallResultPosted(c, r) => ResultReopens(cfg, db, c, r, now, a);
      case _ => OthersReopen(cfg, db, ev, now, a);
    }
  }

  /** Exactly when a resolved alarm stays resolved: unless it is acknowledged by a notified user, or one of its
      calls is answered with key "2" while the chain has somebody else. */
  lemma ResolvedIsTerminalUnlessReopened(cfg: Config, db: Db, ev: Event, now: Time, a: nat)
    requires a < |db.alarms| && db.alarms[a].status == Resolved
    ensures a < |Step(cfg, db, ev, now).alarms|
    ensures Step(cfg, db, ev, now).alarms[a].status == Resolved <==> !Reopens(cfg, db, ev, a)
  {
    StepOpens(cfg, db, ev, now, a);
  }

  /** Apart from creation and reports, no step adds an alarm, and unresolved alarms only come from unresolved ones
      or from a re-opening. */
  lemma StepKeepsAlarmCount(cfg: Config, db: Db, ev: Event, now: Time)
    requires !ev.Send? && !ev.Report?
    ensures |Step(cfg, db, ev, now).alarms| == |db.alarms|
  {
  }

  lemma ReopenedDoubles(cfg: Config, db: Db, ev: Event, now: Time, a: nat)
    requires a < |db.alarms| && Reopens(cfg, db, ev, a) && SiteTaken(db.alarms, a)
    ensures !OneOpenPerSite(Step(cfg, db, ev, now).alarms)
  {
    var alarms' := Step(cfg, db, ev, now).alarms;
    StepOpens(cfg, db, ev, now, a);
    var j :| 0 <= j < |db.alarms| && j != a && OpenAt(db.alarms[j], db.alarms[a].site.value);
    StepOpens(cfg, db, ev, now, j);
    OthersUntouched(cfg, db, ev, now, a, j);
    assert SameSiteOpen(alarms'[Min(a, j)], alarms'[Max(a, j)]);
  }

  lemma OthersUntouched(cfg: Config, db: Db, ev: Event, now: Time, a: nat, j: nat)
    requires a < |db.alarms| && j < |db.alarms| && j != a && Reopens(cfg, db, ev, a)
    ensures j < |Step(cfg, db, ev, now).alarms| && Step(cfg, db, ev, now).alarms[j] == db.alarms[j]
  {
  }

  lemma NoReopeningKeepsOne(cfg: Config, db: Db, ev: Event, now: Time)
    requires !ev.Send? && !ev.Report? && OneOpenPerSite(db.alarms) && !Doubles(cfg, db, ev)
    ensures OneOpenPerSite(Step(cfg, db, ev, now).alarms)
  {
    var alarms' := Step(cfg, db, ev, now).alarms;
    StepKeepsAlarmCount(cfg, db, ev, now);
    forall i, j | 0 <= i < j < |alarms'| ensures !SameSiteOpen(alarms'[i], alarms'[j]) {
      StepOpens(cfg, db, ev, now, i);
      StepOpens(cfg, db, ev, now, j);
      assert !SameSiteOpen(db.alarms[i], db.alarms[j]);
      if SameSiteOpen(alarms'[i], alarms'[j]) {
        ReopenedAlone(cfg, db, ev, now, i, j);
      }
    }
  }

  lemma ReopenedAlone(cfg: Config, db: Db, ev: Event, now: Time, i: nat, j: nat)
    requires i < |db.alarms| && j < |db.alarms| && i != j && !Doubles(cfg, db, ev)
    requires Reopens(cfg, db, ev, i) || Reopens(cfg, db, ev, j)
    requires db.alarms[i].site == db.alarms[j].site && db.alarms[i].site.Some?
    ensures db.alarms[i].status == Resolved && db.alarms[j].status == Resolved
    ensures !(Reopens(cfg, db, ev, i) && Reopens(cfg, db, ev, j))
  {
    var site := db.alarms[i].site.value;
    assert Reopens(cfg, db, ev, i) ==> !SiteTaken(db.alarms, i);
    assert Reopens(cfg, db, ev, j) ==> !SiteTaken(db.alarms, j);
    assert Reopens(cfg, db, ev, i) ==> !OpenAt(db.alarms[j], site);
    assert Reopens(cfg, db, ev, j) ==> !OpenAt(db.alarms[i], site);
  }

  lemma SendDoublesOnlyOpenSite(cfg: Config, db: Db, t: string, site: string, who: Option<int>, now: Time)
    requires OneOpenPerSite(db.alarms)
    ensures OneOpenPerSite(SendAlarm(cfg, db, t, site, who, now).alarms)
            <==> !(SendAllowed(cfg, db, site) && HasOpen(db.alarms, site))
  {
    var alarms' := SendAlarm(cfg, db, t, site, who, now).alarms;
    var n := |db.alarms|;
    if SendAllowed(cfg, db, site) {
      assert OpenAt(alarms'[n], site);
      if HasOpen(db.alarms, site) {
        var i :| 0 <= i < n && OpenAt(db.alarms[i], site);
        assert SameSiteOpen(alarms'[i], alarms'[n]);
      } else {
        forall i, j | 0 <= i < j < |alarms'| ensures !SameSiteOpen(alarms'[i], alarms'[j]) {
          if j < n { assert !SameSiteOpen(db.alarms[i], db.alarms[j]); } else { assert !OpenAt(db.alarms[i], site); }
        }
      }
    }
  }

  /** A step keeps one unresolved alarm per site exactly when it does not bring back a resolved alarm of a site that
      has one, and does not send an alarm to a site whose alarm is only acknowledged. */
  lemma OneOpenPerSiteExactly(cfg: Config, db: Db, ev: Event, now: Time)
    requires OneOpenPerSite(db.alarms)
    ensures OneOpenPerSite(Step(cfg, db, ev, now).alarms) <==> !Doubles(cfg, db, ev)
  {
    if ev.Send? {
      SendDoublesOnlyOpenSite(cfg, db, ev.title, ev.site, ev.requested, now);
    } else if ev.Report? {
      ReportSetsLevel(cfg, db, ev.gatewayId, ev.open, ev.payloadSite, now);
    } else if Doubles(cfg, db, ev) {
      var a :| 0 <= a < |db.alarms| && Reopens(cfg, db, ev, a) && SiteTaken(db.alarms, a);
      ReopenedDoubles(cfg, db, ev, now, a);
    } else {
      NoReopeningKeepsOne(cfg, db, ev, now);
    }
  }

  /** Acknowledging does not look at the status: a resolved alarm comes back as acknowledged. */
  lemma ResolvedAlarmComesBack(cfg: Config, a: Alarm, t: Time)
    requires a.status == Resolved
    ensures var db := Db([a], [NewNotification(0, 1, 0)], [], [], map[]);
            Step(cfg, db, Ack(0, 1), t).alarms[0].status == Acknowledged
  {
    assert NewNotification(0, 1, 0) in [NewNotification(0, 1, 0)];
  }

  /** Sending by hand only looks at live alarms: a site whose alarm is acknowledged gets a second one. */
  lemma AcknowledgedSiteGetsASecondAlarm(cfg: Config, a: Alarm, site: string, title: string, t: Time)
    requires a.status == Acknowledged && a.site == Some(site) && site in cfg.knownSites
    ensures var db := Db([a], [], [], [], map[]);
            OneOpenPerSite(db.alarms) && !OneOpenPerSite(Step(cfg, db, Send(title, site, None), t).alarms)
  {
    var db := Db([a], [], [], [], map[]);
    assert OpenAt(db.alarms[0], site);
    SendDoublesOnlyOpenSite(cfg, db, title, site, None, t);
  }

  // ----- runs -----

  ghost predicate DoublesAt(cfg: Config, states: seq<Db>, run: seq<Moment>, k: nat)
    requires k < |run| <= |states|
  {
    Doubles(cfg, states[k], run[k].event)
  }

  lemma OneOpenAt(cfg: Config, states: seq<Db>, run: seq<Moment>, k: nat)
    requires IsRun(cfg, states, run) && k < |run|
    requires OneOpenPerSite(states[k].alarms) && !DoublesAt(cfg, states, run, k)
    ensures OneOpenPerSite(states[k + 1].alarms)
  {
    assert Stepped(cfg, states, run, k);
    OneOpenPerSiteExactly(cfg, states[k], run[k].event, run[k].now);
  }

  lemma {:induction false} RunKeepsOneOpen(cfg: Config, states: seq<Db>, run: seq<Moment>, k: nat)
    requires IsRun(cfg, states, run) && OneOpenPerSite(states[0].alarms) && k <= |run|
    requires forall j | 0 <= j < k :: !DoublesAt(cfg, states, run, j)
    ensures OneOpenPerSite(states[k].alarms)
  {
    if k > 0 {
      RunKeepsOneOpen(cfg, states, run, k - 1);
      OneOpenAt(cfg, states, run, k - 1);
    }
  }

  /** Every alarm of the site was raised by a gateway. */
  ghost predicate GatewayOnly(alarms: seq<Alarm>, site: string) {
    forall a | a in alarms && a.site == Some(site) :: a.source == GatewayDryContact
  }

  lemma StepKeepsGatewayOnly(cfg: Config, db: Db, ev: Event, now: Time, site: string)
    requires GatewayOnly(db.alarms, site) && !(ev.Send? && ev.site == site)
    ensures GatewayOnly(Step(cfg, db, ev, now).alarms, site)
  {
    var alarms' := Step(cfg, db, ev, now).alarms;
    forall i | 0 <= i < |alarms'| && alarms'[i].site == Some(site)
      ensures alarms'[i].source == GatewayDryContact
    {
      if i < |db.alarms| {
        StepOpens(cfg, db, ev, now, i);
        assert db.alarms[i] in db.alarms;
      } else {
        NewAlarmIsOfEvent(cfg, db, ev, now, i);
      }
    }
  }

  lemma NewAlarmIsOfEvent(cfg: Config, db: Db, ev: Event, now: Time, i: nat)
    requires |db.alarms| <= i < |Step(cfg, db, ev, now).alarms|
    ensures var a := Step(cfg, db, ev, now).alarms[i];
            || (ev.Send? && a.source == Api && a.site == Some(ev.site))
            || (ev.Report? && a.source == GatewayDryContact)
  {
    if !ev.Send? && !ev.Report? {
      StepKeepsAlarmCount(cfg, db, ev, now);
    }
  }

  lemma GatewayOnlyAt(cfg: Config, states: seq<Db>, run: seq<Moment>, site: string, k: nat)
    requires IsRun(cfg, states, run) && k < |run|
    requires GatewayOnly(states[k].alarms, site) && !(run[k].event.Send? && run[k].event.site == site)
    ensures GatewayOnly(states[k + 1].alarms, site)
  {
    assert Stepped(cfg, states, run, k);
    StepKeepsGatewayOnly(cfg, states[k], run[k].event, run[k].now, site);
  }

  lemma {:induction false} RunKeepsGatewayOnly(cfg: Config, states: seq<Db>, run: seq<Moment>, site: string, k: nat)
    requires IsRun(cfg, states, run) && GatewayOnly(states[0].alarms, site) && k <= |run|
    requires forall j | 0 <= j < k :: !(run[j].event.Send? && run[j].event.site == site)
    ensures GatewayOnly(states[k].alarms, site)
  {
    if k > 0 {
      RunKeepsGatewayOnly(cfg, states, run, site, k - 1);
      GatewayOnlyAt(cfg, states, run, site, k - 1);
    }
  }

  /** Level reconciliation over a run: wherever no alarm is sent by hand to the site and no step doubles an alarm,
      right after each report the site is in alarm exactly when one of its gateways heard of lately is open. */
  lemma AlarmFollowsContacts(cfg: Config, states: seq<Db>, run: seq<Moment>, k: nat)
    requires IsRun(cfg, states, run) && k < |run| && run[k].event.Report?
    requires OneOpenPerSite(states[0].alarms) && forall j | 0 <= j < k :: !DoublesAt(cfg, states, run, j)
    requires var site := SiteOr(run[k].event.payloadSite, cfg.defaultSite);
             && GatewayOnly(states[0].alarms, site)
             && forall j | 0 <= j < k :: !(run[j].event.Send? && run[j].event.site == site)
    ensures var site := SiteOr(run[k].event.payloadSite, cfg.defaultSite);
            && OneOpenPerSite(states[k + 1].alarms)
            && (HasOpen(states[k + 1].alarms, site) <==>
                  SomeAlive(cfg, states[k + 1].gateways, site, true, run[k].now))
  {
    var ev := run[k].event;
    var site := SiteOr(ev.payloadSite, cfg.defaultSite);
    RunKeepsOneOpen(cfg, states, run, k);
    RunKeepsGatewayOnly(cfg, states, run, site, k);
    assert Stepped(cfg, states, run, k);
    ReportSetsLevel(cfg, states[k], ev.gatewayId, ev.open, ev.payloadSite, run[k].now);
  }

  // ----- created alarms start the runs of the escalation theorems -----

  ghost predicate NotifsBelong(db: Db) {
    forall n | n in db.notifs :: n.alarmId < |db.alarms|
  }

  /** A new alarm is fresh: its timer starts now, and only its assignee has been notified. */
  lemma CreatedIsFresh(db: Db, title: string, who: Option<int>, source: Source, site: string, now: Time)
    requires NotifsBelong(db)
    ensures var db' := CreateAlarm(db, title, who, source, site, now);
            && Fresh(db', |db.alarms|) && NotifsBelong(db')
            && db'.alarms[|db.alarms|].createdAt == now && LiveAt(db', |db.alarms|)
  {
    var id := |db.alarms|;
    assert NotifiedUsers(db.notifs, id) == {};
    if who.Some? {
      AddNotifiedAdds(db.notifs, id, who.value, now);
    }
  }

  lemma {:induction false} NotifyTargetsBelong(notifs: seq<Notification>, targets: seq<Option<int>>, now: Time)
    requires forall n | n in notifs :: n.alarmId < |targets|
    ensures forall n | n in NotifyTargets(notifs, targets, now) :: n.alarmId < |targets|
  {
    NewNotifsOf(notifs, targets, now);
  }

  lemma {:induction false} NewNotifsOf(notifs: seq<Notification>, targets: seq<Option<int>>, now: Time)
    ensures forall n | n in NotifyTargets(notifs, targets, now) :: n in notifs || n.alarmId < |targets|
  {
    if targets != [] {
      NewNotifsOf(notifs, targets[..|targets| - 1], now);
    }
  }

  lemma TargetsKeepBelong(db: Db, targets: seq<Option<int>>, now: Time)
    requires NotifsBelong(db) && |targets| == |db.alarms|
    ensures NotifsBelong(ApplyTargets(db, targets, now))
  {
    NotifyTargetsBelong(db.notifs, targets, now);
  }

  lemma TickKeepsBelong(cfg: Config, db: Db, now: Time)
    requires NotifsBelong(db)
    ensures NotifsBelong(Tick(cfg, db, now))
  {
    var mid := BeforeEscalation(cfg, db, now);
    forall n | n in mid.notifs ensures n.alarmId < |mid.alarms| {
      var i :| 0 <= i < |mid.notifs| && mid.notifs[i] == n;
      assert n.alarmId == db.notifs[i].alarmId && db.notifs[i] in db.notifs;
    }
    TargetsKeepBelong(mid, TimerTargets(cfg, mid, now), now);
    var d3 := EscalateByTimer(cfg, mid, now);
    forall n | n in MarkAll(cfg, d3.alarms, d3.notifs, now) ensures n.alarmId < |d3.alarms| {
      var i :| 0 <= i < |d3.notifs| && MarkAll(cfg, d3.alarms, d3.notifs, now)[i] == n;
      assert n.alarmId == d3.notifs[i].alarmId && d3.notifs[i] in d3.notifs;
    }
  }

  /** No step leaves a notification of an alarm that does not exist. */
  lemma StepKeepsBelong(cfg: Config, db: Db, ev: Event, now: Time)
    requires NotifsBelong(db)
    ensures NotifsBelong(Step(cfg, db, ev, now))
  {
    match ev
    case LoopTick => TickKeepsBelong(cfg, db, now);
    case AdminEscalate => TargetsKeepBelong(db, AdminTargets(cfg, db), now);
    case CallResultPosted(c, r) =>
      if c < |db.calls| && r == EscalateKey {
        var db1 := db.(calls := db.calls[c := CallAfter(db.calls[c], r, now)]);
        TargetsKeepBelong(db1, KeyTargets(cfg, db1, db.calls[c].alarmId), now);
      }
    case Send(t, s, who) => CreatedIsFresh(db, t, CreationAssignee(cfg, who), Api, s, now);
    case Report(g, o, s) => ReportKeepsBelong(cfg, db, g, o, s, now);
    case _ =>
  }

  lemma ReportKeepsBelong(cfg: Config, db: Db, g: string, open: bool, s: Option<string>, now: Time)
    requires NotifsBelong(db)
    ensures NotifsBelong(ReportState(cfg, db, g, open, s, now))
  {
    var d0 := db.(gateways := GatewaysAfter(cfg, db, g, open, s, now));
    CreatedIsFresh(d0, GATEWAY_TITLE, CreationAssignee(cfg, None), GatewayDryContact, SiteOr(s, cfg.defaultSite), now);
  }

  lemma {:induction false} RunKeepsBelong(cfg: Config, states: seq<Db>, run: seq<Moment>, k: nat)
    requires IsRun(cfg, states, run) && NotifsBelong(states[0]) && k <= |run|
    ensures NotifsBelong(states[k])
  {
    if k > 0 {
      RunKeepsBelong(cfg, states, run, k - 1);
      BelongAt(cfg, states, run, k - 1);
    }
  }

  lemma BelongAt(cfg: Config, states: seq<Db>, run: seq<Moment>, k: nat)
    requires IsRun(cfg, states, run) && k < |run| && NotifsBelong(states[k])
    ensures NotifsBelong(states[k + 1])
  {
    assert Stepped(cfg, states, run, k);
    StepKeepsBelong(cfg, states[k], run[k].event, run[k].now);
  }

  /** A step that adds an alarm, sent by hand or raised by a gateway, adds it as the escalation theorems expect. */
  lemma AddedIsFresh(cfg: Config, db: Db, ev: Event, now: Time)
    requires NotifsBelong(db) && |Step(cfg, db, ev, now).alarms| > |db.alarms|
    ensures var db' := Step(cfg, db, ev, now);
            && (ev.Send? || ev.Report?)
            && Fresh(db', |db.alarms|) && LiveAt(db', |db.alarms|) && db'.alarms[|db.alarms|].createdAt == now
  {
    if !ev.Send? && !ev.Report? {
      StepKeepsAlarmCount(cfg, db, ev, now);
    } else if ev.Send? {
      CreatedIsFresh(db, ev.title, CreationAssignee(cfg, ev.requested), Api, ev.site, now);
    } else {
      RaisedIsFresh(cfg, db, ev.gatewayId, ev.open, ev.payloadSite, now);
    }
  }

  lemma RaisedIsFresh(cfg: Config, db: Db, g: string, open: bool, s: Option<string>, now: Time)
    requires NotifsBelong(db) && |ReportState(cfg, db, g, open, s, now).alarms| > |db.alarms|
    ensures var db' := ReportState(cfg, db, g, open, s, now);
            && Fresh(db', |db.alarms|) && LiveAt(db', |db.alarms|) && db'.alarms[|db.alarms|].createdAt == now
  {
    var site, gateways := SiteOr(s, cfg.defaultSite), GatewaysAfter(cfg, db, g, open, s, now);
    var d0 := db.(gateways := gateways);
    var someOpen, someClosed := SomeAlive(cfg, gateways, site, true, now), SomeAlive(cfg, gateways, site, false, now);
    var d1 := Reconcile(cfg, d0, site, someOpen, now);
    CreatedIsFresh(d0, GATEWAY_TITLE, CreationAssignee(cfg, None), GatewayDryContact, site, now);
    MarkKeepsLevel(d1, site, someOpen && someClosed, now);
    FlagKeepsEscalation(d1, site, someOpen && someClosed, now, |db.alarms|);
  }

  lemma SuffixIsRun(cfg: Config, states: seq<Db>, run: seq<Moment>, c: nat)
    requires IsRun(cfg, states, run) && c <= |run|
    ensures IsRun(cfg, states[c..], run[c..])
  {
    forall k | 0 <= k < |run| - c ensures Stepped(cfg, states[c..], run[c..], k) {
      assert Stepped(cfg, states, run, c + k);
    }
  }

  /** Everyone is reached in time, for an alarm created in the middle of a run: from the Send or Report step that adds
      it, if it is left unanswered, every user of the chain is notified within the bound. */
  lemma AddedAlarmReachesEveryone(cfg: Config, states: seq<Db>, run: seq<Moment>, c: nat, gap: int, k: nat)
    requires FixedChain(cfg) && |cfg.chain| >= 2 && Patience(cfg) > 0 && gap >= 0
    requires IsRun(cfg, states, run) && NotifsBelong(states[0]) && c < k <= |run|
    requires |states[c + 1].alarms| > |states[c].alarms|
    requires TicksWithin(run[c + 1..], run[c].now, gap)
    requires forall j | c < j <= k :: LiveAt(states[j], |states[c].alarms|)
    requires LastTick(run[c + 1..], run[c].now, k - c - 1) + gap
             >= run[c].now
                + LevelsFrom(cfg.chain, states[c + 1].alarms[|states[c].alarms|].assignee) * (Patience(cfg) + gap)
    ensures ChainUsers(cfg.chain) <= NotifiedUsers(states[k].notifs, |states[c].alarms|)
  {
    var later, steps := states[c + 1..], run[c + 1..];
    RunKeepsBelong(cfg, states, run, c);
    AddedAt(cfg, states, run, c);
    SuffixIsRun(cfg, states, run, c + 1);
    forall j | 0 <= j <= k - c - 1 ensures LiveAt(later[j], |states[c].alarms|) {
      assert LiveAt(states[c + 1 + j], |states[c].alarms|);
    }
    EveryoneReachedInTime(cfg, later, steps, |states[c].alarms|, run[c].now, gap, k - c - 1);
  }

  lemma AddedAt(cfg: Config, states: seq<Db>, run: seq<Moment>, c: nat)
    requires IsRun(cfg, states, run) && c < |run| && NotifsBelong(states[c])
    requires |states[c + 1].alarms| > |states[c].alarms|
    ensures run[c].event.Send? || run[c].event.Report?
    ensures Fresh(states[c + 1], |states[c].alarms|)
    ensures states[c + 1].alarms[|states[c].alarms|].createdAt == run[c].now
  {
    assert Stepped(cfg, states, run, c);
    AddedIsFresh(cfg, states[c], run[c].event, run[c].now);
  }
}
