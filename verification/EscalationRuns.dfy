/** What escalation guarantees over whole runs of the backend: who is assigned, who has been notified, and how
    soon everybody is. */
module EscalationRuns {
  import opened Basics
  import opened EscalationChain
  import opened AlarmTables
  import opened AlarmSteps

  /** A chain as the configuration endpoints leave it, whose users all exist. */
  ghost predicate FixedChain(cfg: Config) {
    && IsChain(cfg.chain)
    && forall e | e in cfg.chain :: e.userId in KnownUsers(cfg.users)
  }

  // ----- one step, seen by one alarm -----

  ghost predicate SameIdentity(x: Alarm, y: Alarm) {
    y.originalCreatedAt == x.originalCreatedAt && y.title == x.title && y.source == x.source && y.site == x.site
  }

  /** The alarm stays with its assignee; only an expired acknowledgement restarts its timer. */
  ghost predicate Stays(db: Db, db': Db, a: nat, now: Time)
    requires a < |db.alarms| && a < |db'.alarms|
  {
    var x, y := db.alarms[a], db'.alarms[a];
    && y.assignee == x.assignee && y.escalationCount == x.escalationCount
    && (y.createdAt == x.createdAt || (AckExpired(x, now) && y.createdAt == now))
    && NotifiedUsers(db'.notifs, a) == NotifiedUsers(db.notifs, a)
  }

  /** The alarm moves to the next user of the chain, who joins the notified users. */
  ghost predicate MovesOn(cfg: Config, db: Db, db': Db, a: nat, now: Time)
    requires a < |db.alarms| && a < |db'.alarms|
  {
    var x, y := db.alarms[a], db'.alarms[a];
    var next := NextUserId(cfg.chain, x.assignee);
    && next.Some?
    && y.assignee == next && y.escalationCount == x.escalationCount + 1
    && y.createdAt == now && y.status == Escalated
    && NotifiedUsers(db'.notifs, a) == NotifiedUsers(db.notifs, a) + {next.value}
  }

  ghost predicate Evolves(cfg: Config, db: Db, db': Db, a: nat, now: Time)
    requires a < |db.alarms|
  {
    && a < |db'.alarms|
    && SameIdentity(db.alarms[a], db'.alarms[a])
    && (Stays(db, db', a, now) || MovesOn(cfg, db, db', a, now))
  }

  lemma {:induction false} NotifyTargetsAdds(notifs: seq<Notification>, targets: seq<Option<int>>, now: Time, a: nat)
    ensures NotifiedUsers(NotifyTargets(notifs, targets, now), a)
            == NotifiedUsers(notifs, a)
               + if a < |targets| && targets[a].Some? then {targets[a].value} else {}
  {
    if targets != [] {
      var k := |targets| - 1;
      NotifyTargetsAdds(notifs, targets[..k], now, a);
      if targets[k].Some? {
        AddNotifiedAdds(NotifyTargets(notifs, targets[..k], now), k, targets[k].value, now);
      }
    }
  }

  lemma SameNotified(before: seq<Notification>, after: seq<Notification>, a: nat)
    requires |before| == |after|
    requires forall i | 0 <= i < |before| ::
               after[i].alarmId == before[i].alarmId && after[i].userId == before[i].userId
    ensures NotifiedUsers(after, a) == NotifiedUsers(before, a)
  {
    var x, y := NotifiedUsers(before, a), NotifiedUsers(after, a);
    forall u ensures u in x <==> u in y {
      if u in x {
        var n :| n in before && n.alarmId == a && n.userId == u;
        var i :| 0 <= i < |before| && before[i] == n;
        assert after[i] in after;
      }
      if u in y {
        var n :| n in after && n.alarmId == a && n.userId == u;
        var i :| 0 <= i < |after| && after[i] == n;
        assert before[i] in before;
      }
    }
  }

  lemma NextKnownIsNext(cfg: Config, a: Alarm)
    requires FixedChain(cfg)
    ensures NextKnown(cfg, a) == NextUserId(cfg.chain, a.assignee)
  {
    SuccessorsAgree(cfg.chain, a.assignee, KnownUsers(cfg.users));
  }

  lemma ApplyTargetsEvolves(cfg: Config, db: Db, targets: seq<Option<int>>, now: Time, a: nat)
    requires |targets| == |db.alarms| && a < |db.alarms|
    requires targets[a].Some? ==> targets[a] == NextUserId(cfg.chain, db.alarms[a].assignee)
    ensures var db' := ApplyTargets(db, targets, now);
            if targets[a].Some? then MovesOn(cfg, db, db', a, now)
            else db'.alarms[a] == db.alarms[a] && NotifiedUsers(db'.notifs, a) == NotifiedUsers(db.notifs, a)
  {
    NotifyTargetsAdds(db.notifs, targets, now, a);
  }

  lemma BeforeEscalationStays(cfg: Config, db: Db, now: Time, a: nat)
    requires a < |db.alarms|
    ensures var mid := BeforeEscalation(cfg, db, now);
            && |mid.alarms| == |db.alarms|
            && mid.alarms[a] == Reactivate(db.alarms[a], now)
            && NotifiedUsers(mid.notifs, a) == NotifiedUsers(db.notifs, a)
  {
    SameNotified(db.notifs, ExpireAcks(db, now).notifs, a);
  }

  /** A tick moves alarm a on exactly when the timer has a target for it. */
  lemma TickEvolves(cfg: Config, db: Db, now: Time, a: nat)
    requires a < |db.alarms|
    ensures var mid, db' := BeforeEscalation(cfg, db, now), Tick(cfg, db, now);
            && |mid.alarms| == |db.alarms| == |db'.alarms|
            && SameIdentity(db.alarms[a], db'.alarms[a])
            && if TimerTarget(cfg, mid, a, now).Some? then MovesOn(cfg, db, db', a, now)
               else db'.alarms[a] == Reactivate(db.alarms[a], now) && Stays(db, db', a, now)
  {
    var mid := BeforeEscalation(cfg, db, now);
    BeforeEscalationStays(cfg, db, now, a);
    ApplyTargetsEvolves(cfg, mid, TimerTargets(cfg, mid, now), now, a);
    var esc := EscalateByTimer(cfg, mid, now);
    SameNotified(esc.notifs, EnqueueContacts(cfg, esc, now).notifs, a);
  }

  lemma CreateKeepsOthers(db: Db, title: string, assignee: Option<int>, source: Source, site: string, now: Time, a: nat)
    requires a < |db.alarms|
    ensures var db' := CreateAlarm(db, title, assignee, source, site, now);
            && a < |db'.alarms| && db'.alarms[a] == db.alarms[a]
            && NotifiedUsers(db'.notifs, a) == NotifiedUsers(db.notifs, a)
  {
    if assignee.Some? {
      AddNotifiedAdds(db.notifs, |db.alarms|, assignee.value, now);
    }
  }

  lemma ReportKeepsEscalation(cfg: Config, db: Db, g: string, open: bool, s: Option<string>, now: Time, a: nat)
    requires a < |db.alarms|
    ensures var db' := ReportState(cfg, db, g, open, s, now);
            a < |db'.alarms| && SameIdentity(db.alarms[a], db'.alarms[a]) && Stays(db, db', a, now)
  {
    var site := SiteOr(s, cfg.defaultSite);
    var gateways := db.gateways[g := Gateway(open, now, Some(site))];
    var someOpen, someClosed := SomeAlive(cfg, gateways, site, true, now), SomeAlive(cfg, gateways, site, false, now);
    var d1 := Reconcile(cfg, db.(gateways := gateways), site, someOpen, now);
    ReconcileKeepsEscalation(cfg, db.(gateways := gateways), site, someOpen, now, a);
    FlagKeepsEscalation(d1, site, someOpen && someClosed, now, a);
    assert ReportState(cfg, db, g, open, s, now) == FlagDissensus(d1, site, someOpen && someClosed, now);
  }

  ghost predicate SameEscalation(x: Alarm, y: Alarm) {
    SameIdentity(x, y) && y.assignee == x.assignee && y.escalationCount == x.escalationCount && y.createdAt == x.createdAt
  }

  lemma ReconcileKeepsEscalation(cfg: Config, db: Db, site: string, active: bool, now: Time, a: nat)
    requires a < |db.alarms|
    ensures var db' := Reconcile(cfg, db, site, active, now);
            && a < |db'.alarms| && SameEscalation(db.alarms[a], db'.alarms[a])
            && NotifiedUsers(db'.notifs, a) == NotifiedUsers(db.notifs, a)
  {
    if active && FirstOpen(db.alarms, site).None? {
      CreateKeepsOthers(db, GATEWAY_TITLE, CreationAssignee(cfg, None), GatewayDryContact, site, now, a);
    }
  }

  lemma FlagKeepsEscalation(db: Db, site: string, divergent: bool, now: Time, a: nat)
    requires a < |db.alarms|
    ensures var db' := FlagDissensus(db, site, divergent, now);
            |db'.alarms| == |db.alarms| && SameEscalation(db.alarms[a], db'.alarms[a]) && db'.notifs == db.notifs
  {
  }

  /** Every step either leaves an alarm with its assignee or moves it to the next user of the chain. */
  lemma StepEvolves(cfg: Config, db: Db, ev: Event, now: Time, a: nat)
    requires FixedChain(cfg) && a < |db.alarms|
    ensures Evolves(cfg, db, Step(cfg, db, ev, now), a, now)
  {
    match ev
    case LoopTick => TickEvolves(cfg, db, now, a);
    case AdminEscalate =>
      NextKnownIsNext(cfg, db.alarms[a]);
      ApplyTargetsEvolves(cfg, db, AdminTargets(cfg, db), now, a);
    case CallResultPosted(c, r) => ResultEvolves(cfg, db, c, r, now, a);
    case Send(t, s, u) =>
      if SendAllowed(cfg, db, s) { CreateKeepsOthers(db, t, CreationAssignee(cfg, u), Api, s, now, a); }
    case Report(g, o, s) => ReportKeepsEscalation(cfg, db, g, o, s, now, a);
    case _ => AnswerEvolves(cfg, db, ev, now, a);
  }

  lemma ResultEvolves(cfg: Config, db: Db, c: nat, r: CallResult, now: Time, a: nat)
    requires FixedChain(cfg) && a < |db.alarms|
    ensures Evolves(cfg, db, PostCallResult(cfg, db, c, r, now), a, now)
  {
    if c < |db.calls| && r == EscalateKey {
      var db1 := db.(calls := db.calls[c := CallAfter(db.calls[c], r, now)]);
      NextKnownIsNext(cfg, db.alarms[a]);
      ApplyTargetsEvolves(cfg, db1, KeyTargets(cfg, db1, db.calls[c].alarmId), now, a);
    }
  }

  /** Acknowledging, resolving and reporting on an SMS move no alarm. */
  lemma AnswerEvolves(cfg: Config, db: Db, ev: Event, now: Time, a: nat)
    requires a < |db.alarms| && (ev.Ack? || ev.PhoneAck? || ev.ResolveAlarm? || ev.SmsSent? || ev.SmsFailed?)
    ensures var db' := Step(cfg, db, ev, now);
            |db'.alarms| == |db.alarms| && SameEscalation(db.alarms[a], db'.alarms[a]) && db'.notifs == db.notifs
  {
  }

  lemma ApplyTargetsKeepsIdentity(db: Db, targets: seq<Option<int>>, now: Time, a: nat)
    requires |targets| == |db.alarms| && a < |db.alarms|
    ensures var db' := ApplyTargets(db, targets, now);
            |db'.alarms| == |db.alarms| && SameIdentity(db.alarms[a], db'.alarms[a])
  {
  }

  /** Whatever the chain and the users, no step removes an alarm or changes its identity. */
  lemma StepKeepsIdentity(cfg: Config, db: Db, ev: Event, now: Time, a: nat)
    requires a < |db.alarms|
    ensures var alarms' := Step(cfg, db, ev, now).alarms;
            a < |alarms'| && SameIdentity(db.alarms[a], alarms'[a])
  {
    match ev
    case LoopTick => TickEvolves(cfg, db, now, a);
    case AdminEscalate => ApplyTargetsKeepsIdentity(db, AdminTargets(cfg, db), now, a);
    case CallResultPosted(c, r) =>
      if c < |db.calls| && r == EscalateKey {
        var db1 := db.(calls := db.calls[c := CallAfter(db.calls[c], r, now)]);
        ApplyTargetsKeepsIdentity(db1, KeyTargets(cfg, db1, db.calls[c].alarmId), now, a);
      }
    case Send(t, s, u) =>
      if SendAllowed(cfg, db, s) { CreateKeepsOthers(db, t, CreationAssignee(cfg, u), Api, s, now, a); }
    case Report(g, o, s) => ReportKeepsEscalation(cfg, db, g, o, s, now, a);
    case _ => AnswerEvolves(cfg, db, ev, now, a);
  }

  // ----- a run, seen by one alarm -----

  ghost predicate EvolvesAt(cfg: Config, states: seq<Db>, run: seq<Moment>, a: nat, k: nat)
    requires k < |run| < |states| && a < |states[k].alarms|
  {
    Evolves(cfg, states[k], states[k + 1], a, run[k].now)
  }

  /** Every step of the run lets alarm a evolve as above. */
  ghost predicate Evolution(cfg: Config, states: seq<Db>, run: seq<Moment>, a: nat) {
    && |states| == |run| + 1
    && (forall k | 0 <= k < |states| :: a < |states[k].alarms|)
    && (forall k | 0 <= k < |run| :: EvolvesAt(cfg, states, run, a, k))
  }

  lemma {:induction false} RunKeepsAlarm(cfg: Config, states: seq<Db>, run: seq<Moment>, a: nat, k: nat)
    requires FixedChain(cfg) && IsRun(cfg, states, run) && a < |states[0].alarms| && k < |states|
    ensures a < |states[k].alarms|
  {
    if k > 0 {
      RunKeepsAlarm(cfg, states, run, a, k - 1);
      RunEvolvesOnce(cfg, states, run, a, k - 1);
    }
  }

  lemma RunEvolvesOnce(cfg: Config, states: seq<Db>, run: seq<Moment>, a: nat, k: nat)
    requires FixedChain(cfg) && IsRun(cfg, states, run) && k < |run| && a < |states[k].alarms|
    ensures Evolves(cfg, states[k], states[k + 1], a, run[k].now)
  {
    assert Stepped(cfg, states, run, k);
    StepEvolves(cfg, states[k], run[k].event, run[k].now, a);
  }

  lemma RunEvolves(cfg: Config, states: seq<Db>, run: seq<Moment>, a: nat)
    requires FixedChain(cfg) && IsRun(cfg, states, run) && a < |states[0].alarms|
    ensures Evolution(cfg, states, run, a)
  {
    forall k | 0 <= k < |states| ensures a < |states[k].alarms| { RunKeepsAlarm(cfg, states, run, a, k); }
    forall k | 0 <= k < |run| ensures EvolvesAt(cfg, states, run, a, k) {
      RunEvolvesOnce(cfg, states, run, a, k);
    }
  }

  // ----- cumulative escalation is exact -----

  function AsSet(user: Option<int>): set<int> { if user.Some? then {user.value} else {} }

  /** Everybody met on the first k steps of the walk, its start included. */
  function Reached(chain: seq<Entry>, start: Option<int>, k: nat): set<int> {
    if k == 0 then AsSet(start) else Reached(chain, start, k - 1) + AsSet(Walk(chain, start, k))
  }

  /** An alarm as creation leaves it: no escalation yet, and nobody but its assignee notified. */
  ghost predicate Fresh(db: Db, a: nat) {
    && a < |db.alarms|
    && db.alarms[a].escalationCount == 0
    && NotifiedUsers(db.notifs, a) == AsSet(db.alarms[a].assignee)
  }

  /** The assignee and the notified users are those of so many steps of the walk. */
  ghost predicate AfterSteps(chain: seq<Entry>, start: Option<int>, steps: nat, assignee: Option<int>, notified: set<int>) {
    assignee == Walk(chain, start, steps) && notified == Reached(chain, start, steps)
  }

  /** The alarm stands where its escalation count says, and exactly the users on the way were notified. */
  ghost predicate ExactlyAt(cfg: Config, db: Db, a: nat, start: Option<int>) {
    && a < |db.alarms|
    && AfterSteps(cfg.chain, start, db.alarms[a].escalationCount, db.alarms[a].assignee, NotifiedUsers(db.notifs, a))
  }

  lemma EvolvesKeepsExact(cfg: Config, db: Db, db': Db, a: nat, now: Time, start: Option<int>)
    requires ExactlyAt(cfg, db, a, start) && Evolves(cfg, db, db', a, now)
    ensures ExactlyAt(cfg, db', a, start)
  {
    var x := db.alarms[a];
    if MovesOn(cfg, db, db', a, now) {
      OneMoreStep(cfg.chain, start, x.escalationCount, x.assignee, NotifiedUsers(db.notifs, a));
    }
  }

  lemma OneMoreStep(chain: seq<Entry>, start: Option<int>, steps: nat, user: Option<int>, notified: set<int>)
    requires AfterSteps(chain, start, steps, user, notified) && NextUserId(chain, user).Some?
    ensures AfterSteps(chain, start, steps + 1, NextUserId(chain, user), notified + {NextUserId(chain, user).value})
  {
    WalkStep(chain, start, steps);
  }

  lemma FreshIsExact(cfg: Config, db: Db, a: nat)
    requires Fresh(db, a)
    ensures ExactlyAt(cfg, db, a, db.alarms[a].assignee)
  {
    WalkStep(cfg.chain, db.alarms[a].assignee, 0);
  }

  lemma EvolutionStepExact(cfg: Config, states: seq<Db>, run: seq<Moment>, a: nat, k: nat, start: Option<int>)
    requires k < |run| < |states| && a < |states[k].alarms| && EvolvesAt(cfg, states, run, a, k)
    requires ExactlyAt(cfg, states[k], a, start)
    ensures ExactlyAt(cfg, states[k + 1], a, start)
  {
    EvolvesKeepsExact(cfg, states[k], states[k + 1], a, run[k].now, start);
  }

  lemma {:induction false} EvolutionIsExact(cfg: Config, states: seq<Db>, run: seq<Moment>, a: nat, k: nat)
    requires Evolution(cfg, states, run, a) && Fresh(states[0], a) && k <= |run|
    ensures ExactlyAt(cfg, states[k], a, states[0].alarms[a].assignee)
  {
    if k == 0 {
      FreshIsExact(cfg, states[0], a);
    } else {
      EvolutionIsExact(cfg, states, run, a, k - 1);
      EvolutionStepExact(cfg, states, run, a, k - 1, states[0].alarms[a].assignee);
    }
  }

  /** Over any run, whichever of the timer, the admin button and phone key "2" escalated, and in whatever order,
      an alarm's count of escalations says exactly who is assigned and who has been notified. */
  lemma CumulativeEscalation(cfg: Config, states: seq<Db>, run: seq<Moment>, a: nat, k: nat)
    requires FixedChain(cfg) && IsRun(cfg, states, run) && Fresh(states[0], a) && k <= |run|
    ensures ExactlyAt(cfg, states[k], a, states[0].alarms[a].assignee)
  {
    RunEvolves(cfg, states, run, a);
    EvolutionIsExact(cfg, states, run, a, k);
  }

  function ChainUsers(chain: seq<Entry>): set<int> { set e | e in chain :: e.userId }

  lemma {:induction false} ReachedHas(chain: seq<Entry>, start: Option<int>, j: nat, k: nat)
    requires j <= k
    ensures AsSet(Walk(chain, start, j)) <= Reached(chain, start, k)
  {
    if j < k {
      ReachedHas(chain, start, j, k - 1);
    }
  }

  lemma {:induction false} ReachedStaysInChain(chain: seq<Entry>, i: nat, k: nat)
    requires IsChain(chain) && |chain| >= 2 && i < |chain|
    ensures Reached(chain, Some(chain[i].userId), k) <= ChainUsers(chain)
  {
    if k > 0 {
      ReachedStaysInChain(chain, i, k - 1);
      WalkStaysInChain(chain, i, k);
    } else {
      assert chain[i] in chain;
    }
  }

  lemma WalkStaysInChain(chain: seq<Entry>, i: nat, k: nat)
    requires IsChain(chain) && |chain| >= 2 && i < |chain|
    ensures AsSet(Walk(chain, Some(chain[i].userId), k)) <= ChainUsers(chain)
  {
    WalkFromMember(chain, i, k);
    assert chain[Ring(i + k, |chain|)] in chain;
  }

  /** n - 1 steps from a member reach the whole chain. */
  lemma ReachedWholeChain(chain: seq<Entry>, i: nat, k: nat)
    requires IsChain(chain) && |chain| >= 2 && i < |chain| && k + 1 >= |chain|
    ensures Reached(chain, Some(chain[i].userId), k) == ChainUsers(chain)
  {
    var start := Some(chain[i].userId);
    ReachedStaysInChain(chain, i, k);
    forall u | u in ChainUsers(chain) ensures u in Reached(chain, start, k) {
      var e :| e in chain && e.userId == u;
      var m :| 0 <= m < |chain| && chain[m] == e;
      WalkReaches(chain, i, m);
      ReachedHas(chain, start, StepsTo(chain, i, m), k);
    }
  }

  /** The user j places after place i on the ring of the chain. */
  function UserAhead(chain: seq<Entry>, i: nat, j: nat): int
    requires chain != []
  {
    chain[Ring(i + j, |chain|)].userId
  }

  /** The users at the k + 1 consecutive places from i on. */
  function Segment(chain: seq<Entry>, i: nat, k: nat): set<int>
    requires chain != []
  {
    set j | 0 <= j <= k :: UserAhead(chain, i, j)
  }

  lemma WalkIsAhead(chain: seq<Entry>, i: nat, k: nat)
    requires IsChain(chain) && |chain| >= 2 && i < |chain|
    ensures Walk(chain, Some(chain[i].userId), k) == Some(UserAhead(chain, i, k))
  {
    WalkFromMember(chain, i, k);
  }

  lemma AheadIsInjective(chain: seq<Entry>, i: nat, j: nat, k: nat)
    requires IsChain(chain) && |chain| >= 2 && i < |chain| && j < k < |chain|
    ensures UserAhead(chain, i, j) != UserAhead(chain, i, k)
  {
    assert Ring(i + j, |chain|) != Ring(i + k, |chain|);
  }

  lemma SegmentGrows(chain: seq<Entry>, i: nat, k: nat)
    requires IsChain(chain) && |chain| >= 2 && i < |chain| && 0 < k < |chain|
    ensures Segment(chain, i, k) == Segment(chain, i, k - 1) + {UserAhead(chain, i, k)}
    ensures UserAhead(chain, i, k) !in Segment(chain, i, k - 1)
  {
    forall j | 0 <= j < k ensures UserAhead(chain, i, j) != UserAhead(chain, i, k) {
      AheadIsInjective(chain, i, j, k);
    }
  }

  lemma {:induction false} SegmentSize(chain: seq<Entry>, i: nat, k: nat)
    requires IsChain(chain) && |chain| >= 2 && i < |chain| && k < |chain|
    ensures |Segment(chain, i, k)| == k + 1
  {
    if k > 0 {
      SegmentSize(chain, i, k - 1);
      SegmentGrows(chain, i, k);
    } else {
      assert Segment(chain, i, 0) == {UserAhead(chain, i, 0)};
    }
  }

  lemma {:induction false} ReachedIsSegment(chain: seq<Entry>, i: nat, k: nat)
    requires IsChain(chain) && |chain| >= 2 && i < |chain| && k < |chain|
    ensures Reached(chain, Some(chain[i].userId), k) == Segment(chain, i, k)
  {
    if k > 0 {
      ReachedIsSegment(chain, i, k - 1);
      SegmentGrows(chain, i, k);
      WalkIsAhead(chain, i, k);
    } else {
      assert Segment(chain, i, 0) == {UserAhead(chain, i, 0)};
      assert Ring(i + 0, |chain|) == i;
    }
  }

  lemma ReachedSegment(chain: seq<Entry>, i: nat, c: nat)
    requires IsChain(chain) && |chain| >= 2 && i < |chain|
    ensures Reached(chain, Some(chain[i].userId), c) == Segment(chain, i, Min(c, |chain| - 1))
  {
    if c >= |chain| {
      ReachedWholeChain(chain, i, c);
      ReachedWholeChain(chain, i, |chain| - 1);
      ReachedIsSegment(chain, i, |chain| - 1);
    } else {
      ReachedIsSegment(chain, i, c);
    }
  }

  lemma ExactSegment(cfg: Config, db: Db, a: nat, i: nat)
    requires IsChain(cfg.chain) && |cfg.chain| >= 2 && i < |cfg.chain|
    requires ExactlyAt(cfg, db, a, Some(cfg.chain[i].userId))
    ensures var n, c := |cfg.chain|, db.alarms[a].escalationCount;
            && db.alarms[a].assignee == Some(UserAhead(cfg.chain, i, c))
            && NotifiedUsers(db.notifs, a) == Segment(cfg.chain, i, Min(c, n - 1))
            && |NotifiedUsers(db.notifs, a)| == Min(c + 1, n)
            && UserAhead(cfg.chain, i, c) in NotifiedUsers(db.notifs, a)
  {
    var chain, c := cfg.chain, db.alarms[a].escalationCount;
    WalkIsAhead(chain, i, c);
    ReachedHas(chain, Some(chain[i].userId), c, c);
    ReachedSegment(chain, i, c);
    SegmentSize(chain, i, Min(c, |chain| - 1));
  }

  /** Starting from chain[i], after c escalations the assignee is chain[(i + c) mod n], and the notified users are
      the min(c + 1, n) consecutive members from i on, the assignee among them. */
  lemma EscalationSegment(cfg: Config, states: seq<Db>, run: seq<Moment>, a: nat, i: nat, k: nat)
    requires FixedChain(cfg) && IsRun(cfg, states, run) && Fresh(states[0], a) && k <= |run|
    requires |cfg.chain| >= 2 && i < |cfg.chain| && states[0].alarms[a].assignee == Some(cfg.chain[i].userId)
    ensures a < |states[k].alarms|
    ensures var n, c, notified := |cfg.chain|, states[k].alarms[a].escalationCount, NotifiedUsers(states[k].notifs, a);
            && states[k].alarms[a].assignee == Some(UserAhead(cfg.chain, i, c))
            && notified == Segment(cfg.chain, i, Min(c, n - 1))
            && |notified| == Min(c + 1, n)
            && UserAhead(cfg.chain, i, c) in notified
  {
    CumulativeEscalation(cfg, states, run, a, k);
    ExactSegment(cfg, states[k], a, i);
  }

  lemma {:induction false} EvolutionNotifiesOnly(cfg: Config, states: seq<Db>, run: seq<Moment>, a: nat, j: nat, k: nat)
    requires Evolution(cfg, states, run, a) && j <= k <= |run|
    ensures NotifiedUsers(states[j].notifs, a) <= NotifiedUsers(states[k].notifs, a)
    ensures SameIdentity(states[j].alarms[a], states[k].alarms[a])
    ensures states[j].alarms[a].escalationCount <= states[k].alarms[a].escalationCount
  {
    if j < k {
      EvolutionNotifiesOnly(cfg, states, run, a, j, k - 1);
      assert EvolvesAt(cfg, states, run, a, k - 1);
    }
  }

  /** Nobody is ever un-notified, and an alarm's identity and original date never change. */
  lemma NobodyUnnotified(cfg: Config, states: seq<Db>, run: seq<Moment>, a: nat, j: nat, k: nat)
    requires FixedChain(cfg) && IsRun(cfg, states, run) && a < |states[0].alarms| && j <= k <= |run|
    ensures a < |states[j].alarms| && a < |states[k].alarms|
    ensures NotifiedUsers(states[j].notifs, a) <= NotifiedUsers(states[k].notifs, a)
    ensures SameIdentity(states[j].alarms[a], states[k].alarms[a])
    ensures states[j].alarms[a].escalationCount <= states[k].alarms[a].escalationCount
  {
    RunEvolves(cfg, states, run, a);
    EvolutionNotifiesOnly(cfg, states, run, a, j, k);
  }

  lemma {:induction false} LoneMemberStaysPut(cfg: Config, states: seq<Db>, run: seq<Moment>, a: nat, k: nat)
    requires Evolution(cfg, states, run, a) && k <= |run|
    requires |cfg.chain| == 1 && states[0].alarms[a].assignee == Some(cfg.chain[0].userId)
    ensures states[k].alarms[a].assignee == states[0].alarms[a].assignee
    ensures states[k].alarms[a].escalationCount == states[0].alarms[a].escalationCount
  {
    if k > 0 {
      LoneMemberStaysPut(cfg, states, run, a, k - 1);
      LoneMemberStays(cfg.chain);
      assert EvolvesAt(cfg, states, run, a, k - 1);
    }
  }

  // ----- everyone is reached in time -----

  ghost predicate LiveAt(db: Db, a: nat) { a < |db.alarms| && Live(db.alarms[a]) }

  /** Instant of the last tick among the first k steps; the start of the run before the first tick. */
  function LastTick(run: seq<Moment>, start: Time, k: nat): Time
    requires k <= |run|
  {
    if k == 0 then start
    else if run[k - 1].event.LoopTick? then run[k - 1].now
    else LastTick(run, start, k - 1)
  }

  ghost predicate TimeFlows(run: seq<Moment>) {
    forall i, j | 0 <= i < j < |run| :: run[i].now <= run[j].now
  }

  /** Time never goes back, and no step comes more than `gap` after the tick before it. */
  ghost predicate TicksWithin(run: seq<Moment>, start: Time, gap: int) {
    && TimeFlows(run)
    && forall k | 0 <= k < |run| :: start <= run[k].now <= LastTick(run, start, k) + gap
  }

  /** How old a live alarm's timer can get between ticks: the delay, then the wait for the call. */
  function Patience(cfg: Config): int { cfg.escalationDelay + 3 * MINUTE }

  lemma SomebodyIsNext(chain: seq<Entry>, user: Option<int>)
    requires IsChain(chain) && |chain| >= 2
    ensures NextUserId(chain, user).Some? && NextUserId(chain, user) != user
  {
    if i :| 0 <= i < |chain| && Some(chain[i].userId) == user {
      Successor(chain, i);
    } else {
      StrangerGoesToHead(chain, user);
    }
    NextIsAnotherMember(chain, user);
  }

  /** After a tick the timer of a live alarm is younger than delay + 3 minutes, whether or not any call goes out. */
  lemma TickLeavesNoOverdueAlarm(cfg: Config, db: Db, now: Time, a: nat)
    requires IsChain(cfg.chain) && |cfg.chain| >= 2 && Patience(cfg) > 0
    requires a < |db.alarms| && LiveAt(Tick(cfg, db, now), a)
    ensures now - Tick(cfg, db, now).alarms[a].createdAt < Patience(cfg)
  {
    TickEvolves(cfg, db, now, a);
    SomebodyIsNext(cfg.chain, BeforeEscalation(cfg, db, now).alarms[a].assignee);
    BeforeEscalationStays(cfg, db, now, a);
  }

  /** No tick of the run leaves alarm a overdue. */
  ghost predicate TicksAct(cfg: Config, states: seq<Db>, run: seq<Moment>, a: nat) {
    && |states| == |run| + 1
    && forall k | 0 <= k < |run| :: run[k].event.LoopTick? && LiveAt(states[k + 1], a)
                                    ==> run[k].now - states[k + 1].alarms[a].createdAt < Patience(cfg)
  }

  lemma RunTicksAct(cfg: Config, states: seq<Db>, run: seq<Moment>, a: nat)
    requires FixedChain(cfg) && |cfg.chain| >= 2 && Patience(cfg) > 0
    requires IsRun(cfg, states, run) && a < |states[0].alarms|
    ensures TicksAct(cfg, states, run, a)
  {
    forall k | 0 <= k < |run| && run[k].event.LoopTick? && LiveAt(states[k + 1], a)
      ensures run[k].now - states[k + 1].alarms[a].createdAt < Patience(cfg)
    {
      RunKeepsAlarm(cfg, states, run, a, k);
      assert Stepped(cfg, states, run, k);
      TickLeavesNoOverdueAlarm(cfg, states[k], run[k].now, a);
    }
  }

  /** The timer is fresh enough for the last tick, and was last set within one level bound per escalation. */
  ghost predicate OnSchedule(cfg: Config, x: Alarm, start: Time, gap: int, lastTick: Time) {
    && lastTick < x.createdAt + Patience(cfg)
    && x.createdAt <= start + Levels(x.escalationCount, Patience(cfg) + gap)
  }

  lemma {:induction false} LastTickIsPast(run: seq<Moment>, start: Time, gap: int, k: nat)
    requires TicksWithin(run, start, gap) && k < |run|
    ensures LastTick(run, start, k) <= run[k].now
  {
    if k > 0 {
      assert run[k - 1].now <= run[k].now;
      if !run[k - 1].event.LoopTick? {
        LastTickIsPast(run, start, gap, k - 1);
      }
    }
  }

  lemma ScheduleStep(cfg: Config, x: Alarm, y: Alarm, start: Time, gap: int, lastTick: Time, now: Time, tick: bool)
    requires OnSchedule(cfg, x, start, gap, lastTick) && lastTick <= now <= lastTick + gap && Patience(cfg) > 0
    requires || (y.createdAt == x.createdAt && y.escalationCount == x.escalationCount)
             || (y.createdAt == now && y.escalationCount == x.escalationCount + 1)
    requires tick ==> now - y.createdAt < Patience(cfg)
    ensures OnSchedule(cfg, y, start, gap, if tick then now else lastTick)
  {
  }

  lemma TimerAt(cfg: Config, states: seq<Db>, run: seq<Moment>, a: nat, k: nat)
    requires Evolution(cfg, states, run, a) && k < |run| && LiveAt(states[k], a)
    ensures var x, y := states[k].alarms[a], states[k + 1].alarms[a];
            || (y.createdAt == x.createdAt && y.escalationCount == x.escalationCount)
            || (y.createdAt == run[k].now && y.escalationCount == x.escalationCount + 1)
  {
    assert EvolvesAt(cfg, states, run, a, k);
  }

  lemma {:induction false} UnansweredStaysOnSchedule(
      cfg: Config, states: seq<Db>, run: seq<Moment>, a: nat, start: Time, gap: int, k: nat)
    requires Patience(cfg) > 0 && Evolution(cfg, states, run, a) && TicksAct(cfg, states, run, a)
    requires states[0].alarms[a].escalationCount == 0 && states[0].alarms[a].createdAt == start
    requires TicksWithin(run, start, gap) && k <= |run|
    requires forall j | 0 <= j <= k :: LiveAt(states[j], a)
    ensures OnSchedule(cfg, states[k].alarms[a], start, gap, LastTick(run, start, k))
  {
    if k > 0 {
      UnansweredStaysOnSchedule(cfg, states, run, a, start, gap, k - 1);
      var now := run[k - 1].now;
      assert LiveAt(states[k - 1], a) && LiveAt(states[k], a);
      LastTickIsPast(run, start, gap, k - 1);
      TimerAt(cfg, states, run, a, k - 1);
      ScheduleStep(cfg, states[k - 1].alarms[a], states[k].alarms[a], start, gap, LastTick(run, start, k - 1), now,
                   run[k - 1].event.LoopTick?);
    }
  }

  lemma ScheduleSetsPace(cfg: Config, x: Alarm, start: Time, gap: int, lastTick: Time, m: nat)
    requires OnSchedule(cfg, x, start, gap, lastTick) && Patience(cfg) > 0 && gap >= 0
    requires lastTick + gap >= start + Levels(m, Patience(cfg) + gap)
    ensures x.escalationCount >= m
  {
    if x.escalationCount < m {
      LevelsGrow(x.escalationCount + 1, m, Patience(cfg) + gap);
    }
  }

  /** m level bounds after its creation, an alarm nobody answered has been escalated at least m times. */
  lemma EscalationsKeepPace(cfg: Config, states: seq<Db>, run: seq<Moment>, a: nat, start: Time, gap: int, k: nat, m: nat)
    requires FixedChain(cfg) && |cfg.chain| >= 2 && Patience(cfg) > 0 && gap >= 0
    requires IsRun(cfg, states, run) && Fresh(states[0], a) && states[0].alarms[a].createdAt == start
    requires TicksWithin(run, start, gap) && k <= |run|
    requires forall j | 0 <= j <= k :: LiveAt(states[j], a)
    requires LastTick(run, start, k) + gap >= start + Levels(m, Patience(cfg) + gap)
    ensures LiveAt(states[k], a) && states[k].alarms[a].escalationCount >= m
  {
    RunEvolves(cfg, states, run, a);
    RunTicksAct(cfg, states, run, a);
    UnansweredStaysOnSchedule(cfg, states, run, a, start, gap, k);
    ScheduleSetsPace(cfg, states[k].alarms[a], start, gap, LastTick(run, start, k), m);
  }

  lemma {:induction false} WalkSplit(chain: seq<Entry>, start: Option<int>, k: nat)
    ensures Walk(chain, start, k + 1) == Walk(chain, Walk(chain, start, 1), k)
  {
    if k > 0 {
      WalkSplit(chain, start, k - 1);
    }
  }

  lemma ReachedVia(chain: seq<Entry>, user: Option<int>, i: nat, m: nat, k: nat)
    requires IsChain(chain) && |chain| >= 2 && i < |chain| && m < |chain| && k >= |chain|
    requires Walk(chain, user, 1) == Some(chain[i].userId)
    ensures chain[m].userId in Reached(chain, user, k)
  {
    WalkReaches(chain, i, m);
    WalkSplit(chain, user, StepsTo(chain, i, m));
    ReachedHas(chain, user, StepsTo(chain, i, m) + 1, k);
  }

  /** n steps from anybody, member or not, reach the whole chain. */
  lemma ReachedFromAnyone(chain: seq<Entry>, user: Option<int>, k: nat)
    requires IsChain(chain) && |chain| >= 2 && k >= |chain|
    ensures ChainUsers(chain) <= Reached(chain, user, k)
  {
    SomebodyIsNext(chain, user);
    NextIsAnotherMember(chain, user);
    var i :| 0 <= i < |chain| && Some(chain[i].userId) == NextUserId(chain, user);
    assert Walk(chain, user, 0) == user;
    forall u | u in ChainUsers(chain) ensures u in Reached(chain, user, k) {
      var m :| 0 <= m < |chain| && chain[m].userId == u;
      ReachedVia(chain, user, i, m, k);
    }
  }

  /** Levels needed to reach the whole chain: one less for an alarm that starts with a member. */
  function LevelsFrom(chain: seq<Entry>, user: Option<int>): nat
    requires chain != []
  {
    if Member(chain, user) then |chain| - 1 else |chain|
  }

  lemma LevelsReachAll(chain: seq<Entry>, user: Option<int>, k: nat)
    requires IsChain(chain) && |chain| >= 2 && k >= LevelsFrom(chain, user)
    ensures ChainUsers(chain) <= Reached(chain, user, k)
  {
    if Member(chain, user) {
      var i :| 0 <= i < |chain| && Some(chain[i].userId) == user;
      ReachedWholeChain(chain, i, k);
    } else {
      ReachedFromAnyone(chain, user, k);
    }
  }

  /** An alarm left unanswered has notified every user of the chain within n * (delay + 3 min + tick gap), and
      one level earlier when it started with a member of the chain: no hypothesis on any call or SMS. */
  lemma EveryoneReachedInTime(cfg: Config, states: seq<Db>, run: seq<Moment>, a: nat, start: Time, gap: int, k: nat)
    requires FixedChain(cfg) && |cfg.chain| >= 2 && Patience(cfg) > 0 && gap >= 0
    requires IsRun(cfg, states, run) && Fresh(states[0], a) && states[0].alarms[a].createdAt == start
    requires TicksWithin(run, start, gap) && k <= |run|
    requires forall j | 0 <= j <= k :: LiveAt(states[j], a)
    requires LastTick(run, start, k) + gap
             >= start + LevelsFrom(cfg.chain, states[0].alarms[a].assignee) * (Patience(cfg) + gap)
    ensures ChainUsers(cfg.chain) <= NotifiedUsers(states[k].notifs, a)
  {
    var who := states[0].alarms[a].assignee;
    LevelsIsProduct(LevelsFrom(cfg.chain, who), Patience(cfg) + gap);
    EscalationsKeepPace(cfg, states, run, a, start, gap, k, LevelsFrom(cfg.chain, who));
    CumulativeEscalation(cfg, states, run, a, k);
    LevelsReachAll(cfg.chain, who, states[k].alarms[a].escalationCount);
  }

  // ----- the timer's escalations are spaced -----

  /** Step k is a tick whose timer escalates alarm a. */
  ghost predicate TimerMoves(cfg: Config, states: seq<Db>, run: seq<Moment>, a: nat, k: nat)
    requires k < |run| < |states|
  {
    && a < |states[k].alarms|
    && run[k].event.LoopTick?
    && TimerTarget(cfg, BeforeEscalation(cfg, states[k], run[k].now), a, run[k].now).Some?
  }

  /** The timer escalates only a level at least as old as the delay, and restarts it. */
  lemma TimerMoveEffect(cfg: Config, states: seq<Db>, run: seq<Moment>, a: nat, k: nat)
    requires IsRun(cfg, states, run) && k < |run| && TimerMoves(cfg, states, run, a, k)
    ensures a < |states[k + 1].alarms| && states[k + 1].alarms[a].createdAt == run[k].now
    ensures run[k].now - states[k].alarms[a].createdAt >= cfg.escalationDelay
            || (AckExpired(states[k].alarms[a], run[k].now) && cfg.escalationDelay <= 0)
  {
    assert Stepped(cfg, states, run, k);
    TickEvolves(cfg, states[k], run[k].now, a);
    BeforeEscalationStays(cfg, states[k], run[k].now, a);
  }

  lemma {:induction false} TimerOnlyRestarts(cfg: Config, states: seq<Db>, run: seq<Moment>, a: nat, i: nat, k: nat)
    requires Evolution(cfg, states, run, a) && TimeFlows(run) && i < k <= |run|
    requires states[i + 1].alarms[a].createdAt == run[i].now
    ensures states[k].alarms[a].createdAt >= run[i].now
  {
    if k > i + 1 {
      TimerOnlyRestarts(cfg, states, run, a, i, k - 1);
      assert EvolvesAt(cfg, states, run, a, k - 1);
      assert run[i].now <= run[k - 1].now;
    }
  }

  /** Two escalations of one alarm by the timer are at least the configured delay apart. */
  lemma TimerMovesAreSpaced(cfg: Config, states: seq<Db>, run: seq<Moment>, a: nat, i: nat, j: nat)
    requires FixedChain(cfg) && IsRun(cfg, states, run) && TimeFlows(run) && a < |states[0].alarms|
    requires i < j < |run| && TimerMoves(cfg, states, run, a, i) && TimerMoves(cfg, states, run, a, j)
    ensures run[j].now - run[i].now >= cfg.escalationDelay
  {
    RunEvolves(cfg, states, run, a);
    TimerMoveEffect(cfg, states, run, a, i);
    TimerMoveEffect(cfg, states, run, a, j);
    TimerOnlyRestarts(cfg, states, run, a, i, j);
    assert run[i].now <= run[j].now;
  }
}
