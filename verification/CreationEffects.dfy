/** How an alarm comes and goes: what sending one by hand does, and what a gateway's report does. */
module CreationEffects {
  import opened Basics
  import opened EscalationChain
  import opened AlarmTables
  import opened AlarmSteps
  import opened EscalationRuns
  import opened ContactDelivery

  // ----- creation -----

  /** Who a new alarm goes to: the user asked for; else the head of the chain, below whom nobody stands; else the first
      user; nobody without users. */
  ghost predicate GoesTo(cfg: Config, requested: Option<int>, who: Option<int>) {
    if requested.Some? then who == requested
    else if cfg.chain != [] then
      exists e :: e in cfg.chain && who == Some(e.userId)
                  && (IsChain(cfg.chain) ==> forall f | f in cfg.chain :: e.position <= f.position)
    else if cfg.users != [] then who == Some(cfg.users[0].id)
    else who == None
  }

  lemma AssigneeGoes(cfg: Config, requested: Option<int>)
    ensures GoesTo(cfg, requested, CreationAssignee(cfg, requested))
  {
    if cfg.chain != [] {
      assert cfg.chain[0] in cfg.chain;
    }
  }

  /** The tables with one more alarm, active since now at level 0, and its assignee notified now, unmarked. */
  ghost predicate Added(db: Db, db': Db, title: string, who: Option<int>, source: Source, site: string, now: Time) {
    && db'.alarms == db.alarms + [Alarm(title, Active, who, now, now, None, None, 0, source, Some(site), None, None)]
    && db'.notifs == (if who.Some? then db.notifs + [Notification(|db.alarms|, who.value, Some(now), false, false)] else db.notifs)
    && db'.sms == db.sms && db'.calls == db.calls && db'.gateways == db.gateways
  }

  lemma CreationAdds(db: Db, title: string, who: Option<int>, source: Source, site: string, now: Time)
    requires forall n | n in db.notifs :: n.alarmId < |db.alarms|
    ensures Added(db, CreateAlarm(db, title, who, source, site, now), title, who, source, site, now)
  {
  }

  /** Sending by hand adds the alarm asked for exactly when the site is known and no alarm of the site waits for an
      answer; otherwise it changes nothing. */
  lemma SendAddsExactly(cfg: Config, db: Db, title: string, site: string, requested: Option<int>, now: Time)
    requires forall n | n in db.notifs :: n.alarmId < |db.alarms|
    ensures var db' := Step(cfg, db, Send(title, site, requested), now);
            if site in cfg.knownSites
               && !(exists i | 0 <= i < |db.alarms| :: Unanswered(db.alarms[i]) && db.alarms[i].site == Some(site))
            then exists who :: GoesTo(cfg, requested, who) && Added(db, db', title, who, Api, site, now)
            else db' == db
  {
    var who := CreationAssignee(cfg, requested);
    AssigneeGoes(cfg, requested);
    CreationAdds(db, title, who, Api, site, now);
    if i :| 0 <= i < |db.alarms| && Unanswered(db.alarms[i]) && db.alarms[i].site == Some(site) {
      assert db.alarms[i] in db.alarms;
    }
    forall x | x in db.alarms && Live(x) && x.site == Some(site)
      ensures exists i | 0 <= i < |db.alarms| :: Unanswered(db.alarms[i]) && db.alarms[i].site == Some(site)
    {
      var i :| 0 <= i < |db.alarms| && db.alarms[i] == x;
      assert Unanswered(db.alarms[i]);
    }
  }

  /** A gateway of the site was heard of within the window, and reported that state. */
  ghost predicate Heard(cfg: Config, gateways: map<string, Gateway>, site: string, open: bool, now: Time) {
    exists id :: id in gateways && gateways[id].open == open && gateways[id].lastSeen > now - cfg.livenessWindow
                 && site == if gateways[id].site.Some? then gateways[id].site.value else cfg.defaultSite
  }

  ghost predicate IsOpenAt(x: Alarm, site: string) { x.status != Resolved && x.site == Some(site) }

  ghost predicate IsFirstOpen(alarms: seq<Alarm>, site: string, i: nat) {
    i < |alarms| && IsOpenAt(alarms[i], site) && forall j | 0 <= j < i :: !IsOpenAt(alarms[j], site)
  }

  /** Nothing but the two dissensus dates differs. */
  ghost predicate SameButDates(x: Alarm, y: Alarm) {
    y == x.(dissensusSince := y.dissensusSince, dissensusEmailAt := y.dissensusEmailAt)
  }

  /** What a report must have made of the site's alarms. */
  ghost predicate FollowsContact(
      cfg: Config, alarms: seq<Alarm>, notifs: seq<Notification>, alarms': seq<Alarm>, notifs': seq<Notification>,
      site: string, someOpen: bool, someClosed: bool, now: Time)
  {
    if someOpen && forall i: nat :: !IsFirstOpen(alarms, site, i) then
      && |alarms'| == |alarms| + 1
      && (forall i | 0 <= i < |alarms| :: SameButDates(alarms[i], alarms'[i]))
      && exists who ::
           && GoesTo(cfg, None, who)
           && alarms'[|alarms|] == Alarm(GATEWAY_TITLE, Active, who, now, now, None, None, 0, GatewayDryContact,
                                               Some(site), if someClosed then Some(now) else None, None)
           && notifs' == (if who.Some? then notifs + [Notification(|alarms|, who.value, Some(now), false, false)]
                             else notifs)
    else
      && |alarms'| == |alarms| && notifs' == notifs
      && forall i: nat | i < |alarms| ::
           if !someOpen && IsFirstOpen(alarms, site, i) && alarms[i].source == GatewayDryContact
           then SameButDates(alarms[i].(status := Resolved), alarms'[i])
           else SameButDates(alarms[i], alarms'[i])
  }

  lemma FirstOpenIs(alarms: seq<Alarm>, site: string)
    ensures forall i: nat :: IsFirstOpen(alarms, site, i) <==> FirstOpen(alarms, site) == Some(i)
    ensures FirstOpen(alarms, site).Some? ==> IsFirstOpen(alarms, site, FirstOpen(alarms, site).value)
  {
    FirstOpenIsFirst(alarms, site, 0);
    forall i: nat ensures IsFirstOpen(alarms, site, i) <==> FirstOpen(alarms, site) == Some(i) {
      if FirstOpen(alarms, site).Some? {
        assert OpenAt(alarms[FirstOpen(alarms, site).value], site);
      }
    }
  }

  lemma {:induction false} FirstOpenIsFirst(alarms: seq<Alarm>, site: string, from: nat)
    requires from <= |alarms|
    ensures var r := FirstOpenFrom(alarms, site, from);
            r.Some? ==> forall j | from <= j < r.value :: !IsOpenAt(alarms[j], site)
    decreases |alarms| - from
  {
    if from < |alarms| {
      FirstOpenIsFirst(alarms, site, from + 1);
    }
  }

  /** What a report does, whatever the tables: the gateway's row is its state now; the site gets an alarm when one of its
      gateways heard of lately is open and it has none unresolved; with none open its first unresolved alarm is resolved
      if a gateway raised it; nothing else changes but dissensus dates. */
  lemma ReportActsExactly(cfg: Config, db: Db, g: string, open: bool, s: Option<string>, now: Time)
    requires forall n | n in db.notifs :: n.alarmId < |db.alarms|
    ensures var db', site := Step(cfg, db, Report(g, open, s), now), if s.Some? && s.value != "" then s.value else cfg.defaultSite;
            && db'.gateways == db.gateways[g := Gateway(open, now, Some(site))]
            && db'.sms == db.sms && db'.calls == db.calls
            && FollowsContact(cfg, db.alarms, db.notifs, db'.alarms, db'.notifs, site, Heard(cfg, db'.gateways, site, true, now),
                              Heard(cfg, db'.gateways, site, false, now), now)
  {
    var site := SiteOr(s, cfg.defaultSite);
    var gateways := db.gateways[g := Gateway(open, now, Some(site))];
    HeardIs(cfg, gateways, site, true, now);
    HeardIs(cfg, gateways, site, false, now);
    var someOpen, someClosed := Heard(cfg, gateways, site, true, now), Heard(cfg, gateways, site, false, now);
    var d0 := db.(gateways := gateways);
    ReconcileActs(cfg, d0, site, someOpen, now);
    var d1 := Reconcile(cfg, d0, site, someOpen, now);
    FlagActs(cfg, d0, d1, site, someOpen, someClosed, now);
    ReportFrames(cfg, db, g, open, s, now);
  }

  lemma ReportFrames(cfg: Config, db: Db, g: string, open: bool, s: Option<string>, now: Time)
    ensures var db', site := ReportState(cfg, db, g, open, s, now), SiteOr(s, cfg.defaultSite);
            var d0 := db.(gateways := db.gateways[g := Gateway(open, now, Some(site))]);
            var someOpen, someClosed :=
              SomeAlive(cfg, d0.gateways, site, true, now), SomeAlive(cfg, d0.gateways, site, false, now);
            && db'.gateways == d0.gateways && db'.sms == db.sms && db'.calls == db.calls
            && db' == FlagDissensus(Reconcile(cfg, d0, site, someOpen, now), site, someOpen && someClosed, now)
  {
  }

  lemma HeardIs(cfg: Config, gateways: map<string, Gateway>, site: string, open: bool, now: Time)
    ensures Heard(cfg, gateways, site, open, now) <==> SomeAlive(cfg, gateways, site, open, now)
  {
  }

  /** Before the dissensus dates are looked at, a new alarm has none. */
  lemma ReconcileActs(cfg: Config, db: Db, site: string, someOpen: bool, now: Time)
    requires forall n | n in db.notifs :: n.alarmId < |db.alarms|
    ensures var d1 := Reconcile(cfg, db, site, someOpen, now);
            FollowsContact(cfg, db.alarms, db.notifs, d1.alarms, d1.notifs, site, someOpen, false, now)
    ensures someOpen && (forall i: nat :: !IsFirstOpen(db.alarms, site, i)) ==>
              Reconcile(cfg, db, site, someOpen, now).alarms[..|db.alarms|] == db.alarms
  {
    FirstOpenIs(db.alarms, site);
    var who := CreationAssignee(cfg, None);
    AssigneeGoes(cfg, None);
    CreationAdds(db, GATEWAY_TITLE, who, GatewayDryContact, site, now);
  }

  lemma FlagTouchesDates(db: Db, site: string, divergent: bool, now: Time)
    ensures var db' := FlagDissensus(db, site, divergent, now);
            && |db'.alarms| == |db.alarms| && db'.notifs == db.notifs
            && forall i | 0 <= i < |db.alarms| :: SameButDates(db.alarms[i], db'.alarms[i])
  {
  }

  lemma FlagActs(cfg: Config, db: Db, d1: Db, site: string, someOpen: bool, someClosed: bool, now: Time)
    requires FollowsContact(cfg, db.alarms, db.notifs, d1.alarms, d1.notifs, site, someOpen, false, now)
    requires someOpen && (forall i: nat :: !IsFirstOpen(db.alarms, site, i)) ==>
               |d1.alarms| > |db.alarms| && d1.alarms[..|db.alarms|] == db.alarms
    ensures var db' := FlagDissensus(d1, site, someOpen && someClosed, now);
            FollowsContact(cfg, db.alarms, db.notifs, db'.alarms, db'.notifs, site, someOpen, someClosed, now)
  {
    var divergent := someOpen && someClosed;
    var db' := FlagDissensus(d1, site, divergent, now);
    FlagTouchesDates(d1, site, divergent, now);
    if someOpen && forall i: nat :: !IsFirstOpen(db.alarms, site, i) {
      NewAlarmIsFlagged(cfg, db, d1, site, divergent, now);
    }
  }

  /** The alarm just raised is the one whose dates the report looks at. */
  lemma NewAlarmIsFlagged(cfg: Config, db: Db, d1: Db, site: string, divergent: bool, now: Time)
    requires forall i: nat :: !IsFirstOpen(db.alarms, site, i)
    requires |d1.alarms| == |db.alarms| + 1 && d1.alarms[..|db.alarms|] == db.alarms
    requires var x := d1.alarms[|db.alarms|];
             LiveGatewayAlarm(x, site) && x.dissensusSince.None? && x.dissensusEmailAt.None?
    ensures var x := d1.alarms[|db.alarms|];
            FlagDissensus(d1, site, divergent, now).alarms
            == db.alarms + [if divergent then x.(dissensusSince := Some(now)) else x]
  {
    var n := |db.alarms|;
    FirstOpenIs(db.alarms, site);
    forall i | 0 <= i < n ensures !LiveGatewayAlarm(d1.alarms[i], site) {
      assert d1.alarms[i] == d1.alarms[..n][i];
      assert !OpenAt(db.alarms[i], site);
    }
    assert FirstLiveGatewayAlarm(d1.alarms, site, 0) == Some(n);
    assert d1.alarms == db.alarms + [d1.alarms[n]];
  }
}
