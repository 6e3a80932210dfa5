/** The handlers and the loop, updating the tables in place. Each method is tied to the function of AlarmSteps
    that the run theorems are about. */
module AlarmBackend {
  import opened Basics
  import opened EscalationChain
  import opened AlarmTables
  import opened AlarmSteps
  import opened StepEffects
  import opened EscalationLogic

  class Backend {
    const cfg: Config
    var alarms: seq<Alarm>
    var notifs: seq<Notification>
    var sms: seq<Sms>
    var calls: seq<Call>
    var gateways: map<string, Gateway>

    function Tables(): Db
      reads this
    {
      Db(alarms, notifs, sms, calls, gateways)
    }

    constructor (cfg: Config)
      ensures this.cfg == cfg && Tables() == Db([], [], [], [], map[])
    {
      this.cfg := cfg;
      alarms, notifs, sms, calls, gateways := [], [], [], [], map[];
    }

    // ----- the loop -----

    method ExpireAcknowledgements(now: Time)
      modifies this
      ensures Tables() == ExpireAcks(old(Tables()), now)
    {
      ghost var db := Tables();
      for i := 0 to |alarms|
        invariant |alarms| == |db.alarms| && |notifs| == |db.notifs|
        invariant sms == db.sms && calls == db.calls && gateways == db.gateways
        invariant forall k | 0 <= k < |alarms| :: alarms[k] == if k < i then Reactivate(db.alarms[k], now) else db.alarms[k]
        invariant forall j | 0 <= j < |notifs| ::
                    notifs[j] == if db.notifs[j].alarmId < i then Rearm(db.alarms, db.notifs[j], now) else db.notifs[j]
      {
        var a := alarms[i];
        if a.status == Acknowledged && a.suspendedUntil.Some? && a.suspendedUntil.value < now {
          alarms := alarms[i := a.(status := Active, suspendedUntil := None, createdAt := now)];
          for j := 0 to |notifs|
            invariant |notifs| == |db.notifs| && |alarms| == |db.alarms|
            invariant sms == db.sms && calls == db.calls && gateways == db.gateways
            invariant forall k | 0 <= k < |alarms| :: alarms[k] == if k <= i then Reactivate(db.alarms[k], now) else db.alarms[k]
            invariant forall k | 0 <= k < |notifs| ::
                        notifs[k] == if db.notifs[k].alarmId < i || (k < j && db.notifs[k].alarmId == i)
                                     then Rearm(db.alarms, db.notifs[k], now) else db.notifs[k]
          {
            if notifs[j].alarmId == i {
              notifs := notifs[j := notifs[j].(smsSent := false, callSent := false, notifiedAt := Some(now))];
            }
          }
        }
      }
    }

    method CancelObsoleteContacts()
      modifies this
      ensures Tables() == CancelObsolete(cfg, old(Tables()))
    {
      ghost var db := Tables();
      for i := 0 to |sms|
        invariant |sms| == |db.sms|
        invariant alarms == db.alarms && notifs == db.notifs && calls == db.calls && gateways == db.gateways
        invariant forall k | 0 <= k < |sms| :: sms[k] == if k < i then CancelSms(cfg, db, db.sms[k]) else db.sms[k]
      {
        var s := sms[i];
        if SmsPending(s) {
          var a := SmsAlarm(cfg.users, notifs, s);
          if a.Some? && AlarmIsClosedToContact(alarms, a.value) {
            sms := sms[i := s.(retries := MAX_RETRIES, error := CANCELLED_SMS_ERROR)];
          }
        }
      }
      for i := 0 to |calls|
        invariant |calls| == |db.calls|
        invariant alarms == db.alarms && notifs == db.notifs && gateways == db.gateways
        invariant sms == CancelObsolete(cfg, db).sms
        invariant forall k | 0 <= k < |calls| :: calls[k] == if k < i then CancelCall(db, db.calls[k]) else db.calls[k]
      {
        var c := calls[i];
        if CallPending(c) && AlarmIsClosedToContact(alarms, c.alarmId) {
          calls := calls[i := c.(retries := MAX_RETRIES, result := Some(Cancelled))];
        }
      }
    }

    /** Live alarms whose assignee has a number and has not had his call, or his SMS, yet. */
    method AlarmsAwaitingCall() returns (awaiting: set<nat>)
      ensures AwaitingIs(cfg, Tables(), awaiting)
    {
      awaiting := {};
      for i := 0 to |alarms|
        invariant forall k | 0 <= k < |alarms| && Live(alarms[k]) ::
                    k in awaiting <==> k < i && AwaitsCall(cfg, Tables(), k)
        invariant forall k | k in awaiting :: k < i
      {
        var a := alarms[i];
        if !Live(a) { continue; }
        if a.assignee.None? || a.assignee.value == 0 { continue; }
        var phone := PhoneOf(cfg.users, a.assignee.value);
        if phone.None? { continue; }
        var done := CallDone(calls, i, a.assignee.value, a.createdAt);
        if !done || SmsQueued(sms, phone.value) {
          awaiting := awaiting + {i};
        }
      }
    }

    method EscalateDueAlarms(online: map<int, bool>, now: Time) returns (wakeUps: seq<WakeUp>, decisions: seq<Decision>)
      modifies this
      ensures Tables() == EscalateByTimer(cfg, old(Tables()), now)
      ensures wakeUps == WakeUps(decisions, online)
      ensures forall d | d in decisions :: d.alarmId < |old(alarms)|
      ensures forall d | d in decisions ::
                Some(d.toUser) == TimerTarget(cfg, old(Tables()), d.alarmId, now)
                && d.fromUser == old(alarms)[d.alarmId].assignee
                && (d.withoutCall <==> AwaitsCall(cfg, old(Tables()), d.alarmId))
      ensures forall i | 0 <= i < |old(alarms)| && TimerTarget(cfg, old(Tables()), i, now).Some? ::
                HasDecision(decisions, i)
      ensures forall m, n | 0 <= m < n < |decisions| :: decisions[m].alarmId < decisions[n].alarmId
    {
      ghost var db := Tables();
      var awaiting := AlarmsAwaitingCall();
      var snaps := Snapshots();
      decisions, wakeUps := EvaluateEscalation(snaps, cfg.chain, online, cfg.escalationDelay, now, awaiting);
      assert db.alarms[..|db.alarms|] == db.alarms;
      DecisionsAreTimely(cfg, db, now, awaiting, |db.alarms|);
      DecisionsCoverMoves(cfg, db, now, awaiting, |db.alarms|);
      Apply(decisions, now);
      DecisionsReachTargets(cfg, db, now, awaiting, |db.alarms|);
      assert Upto(TimerTargets(cfg, db, now), |db.alarms|) == TimerTargets(cfg, db, now);
    }

    method Snapshots() returns (snaps: seq<AlarmSnapshot>)
      ensures snaps == LiveSnapshots(alarms)
    {
      snaps := [];
      for i := 0 to |alarms|
        invariant snaps == LiveSnapshots(alarms[..i])
      {
        assert alarms[..i + 1][..i] == alarms[..i];
        var a := alarms[i];
        if Live(a) {
          snaps := snaps + [AlarmSnapshot(i, a.status, a.createdAt, a.assignee)];
        }
      }
      assert alarms[..|alarms|] == alarms;
    }

    method Apply(decisions: seq<Decision>, now: Time)
      requires forall d | d in decisions :: d.alarmId < |alarms|
      modifies this`alarms, this`notifs
      ensures Tables() == ApplyDecisions(old(Tables()), decisions, now)
    {
      ghost var db := Tables();
      for m := 0 to |decisions|
        invariant Tables() == ApplyDecisions(db, decisions[..m], now)
        invariant |alarms| == |db.alarms|
      {
        assert decisions[..m + 1][..m] == decisions[..m];
        var d := decisions[m];
        assert d in decisions;
        alarms := alarms[d.alarmId := EscalateTo(alarms[d.alarmId], d.toUser, now)];
        notifs := AddNotified(notifs, d.alarmId, d.toUser, now);
      }
      assert decisions[..|decisions|] == decisions;
    }

    method EnqueueSmsForUser(n: Notification, before: seq<Sms>, now: Time)
      requires ContactDue(cfg, alarms, n, now)
      modifies this`sms
      ensures sms == old(sms) + SmsFor(cfg, old(Tables()).(sms := before), n.(smsSent := false), now)
    {
      var a := alarms[n.alarmId];
      var phone := PhoneOf(cfg.users, n.userId);
      if phone.None? {
        return;
      }
      if exists s | s in before :: s.toNumber == phone.value && s.body == BodyOf(a) && SmsPending(s) {
        return;
      }
      sms := sms + [Sms(phone.value, BodyOf(a), now, None, 0, "", Some(SiteOr(a.site, cfg.defaultSite)))];
    }

    method EnqueueCallForUser(n: Notification, before: seq<Call>, now: Time)
      requires ContactDue(cfg, alarms, n, now)
      modifies this`calls
      ensures calls == old(calls) + CallFor(cfg, old(Tables()).(calls := before), n.(callSent := false), now)
    {
      var a := alarms[n.alarmId];
      var phone := PhoneOf(cfg.users, n.userId);
      if phone.None? {
        return;
      }
      if CallQueued(before, phone.value, n.alarmId) {
        return;
      }
      calls := calls + [Call(phone.value, n.alarmId, n.userId, now, None, None, 0, Some(SiteOr(a.site, cfg.defaultSite)))];
    }

    /** Queues an SMS for each notification of the list and marks it. The guard looks at the rows the session had
        before this loop: it does not see the rows the loop adds. */
    method QueueSms(due: seq<nat>, now: Time)
      requires AllDue(cfg, alarms, notifs, due, now, false)
      modifies this`sms, this`notifs
      ensures sms == old(sms) + FoldSms(cfg, old(Tables()), due, now)
      ensures notifs == SmsMarks(cfg, old(notifs), due)
    {
      ghost var db := Tables();
      var before := sms;
      for m := 0 to |due|
        invariant SmsSoFar(cfg, db, sms, notifs, due[..m], now)
      {
        var i := due[m];
        assert i in due && due[..m + 1] == due[..m] + [i];
        SmsMarksStep(cfg, db.notifs, due[..m], i);
        ghost var wasSms, wasNotifs := sms, notifs;
        QueueOneSms(i, before, now, db);
        SmsOneMore(cfg, db, wasSms, wasNotifs, sms, notifs, due[..m], i, now);
      }
      assert due[..|due|] == due;
    }

    method QueueOneSms(i: nat, before: seq<Sms>, now: Time, ghost db: Db)
      requires alarms == db.alarms && before == db.sms && i < |notifs| == |db.notifs|
      requires ContactDue(cfg, alarms, notifs[i], now) && notifs[i].(smsSent := false) == db.notifs[i]
      modifies this`sms, this`notifs
      ensures sms == old(sms) + SmsFor(cfg, db, db.notifs[i], now)
      ensures notifs == if FindUser(cfg.users, db.notifs[i].userId).Some?
                        then old(notifs)[i := old(notifs)[i].(smsSent := true)] else old(notifs)
    {
      EnqueueSmsForUser(notifs[i], before, now);
      if FindUser(cfg.users, notifs[i].userId).Some? {
        notifs := notifs[i := notifs[i].(smsSent := true)];
      }
    }

    method QueueCalls(due: seq<nat>, now: Time)
      requires AllDue(cfg, alarms, notifs, due, now, true)
      modifies this`calls, this`notifs
      ensures calls == old(calls) + FoldCalls(cfg, old(Tables()), due, now)
      ensures notifs == CallMarks(cfg, old(notifs), due)
    {
      ghost var db := Tables();
      var before := calls;
      for m := 0 to |due|
        invariant CallsSoFar(cfg, db, calls, notifs, due[..m], now)
      {
        var i := due[m];
        assert i in due && due[..m + 1] == due[..m] + [i];
        CallMarksStep(cfg, db.notifs, due[..m], i);
        ghost var wasCalls, wasNotifs := calls, notifs;
        QueueOneCall(i, before, now, db);
        CallsOneMore(cfg, db, wasCalls, wasNotifs, calls, notifs, due[..m], i, now);
      }
      assert due[..|due|] == due;
    }

    method QueueOneCall(i: nat, before: seq<Call>, now: Time, ghost db: Db)
      requires alarms == db.alarms && before == db.calls && i < |notifs| == |db.notifs|
      requires ContactDue(cfg, alarms, notifs[i], now) && notifs[i].(callSent := false) == db.notifs[i]
      modifies this`calls, this`notifs
      ensures calls == old(calls) + CallFor(cfg, db, db.notifs[i], now)
      ensures notifs == if FindUser(cfg.users, db.notifs[i].userId).Some?
                        then old(notifs)[i := old(notifs)[i].(callSent := true)] else old(notifs)
    {
      EnqueueCallForUser(notifs[i], before, now);
      if FindUser(cfg.users, notifs[i].userId).Some? {
        notifs := notifs[i := notifs[i].(callSent := true)];
      }
    }

    method EnqueueDueContacts(now: Time)
      modifies this
      ensures Tables() == EnqueueContacts(cfg, old(Tables()), now)
    {
      ghost var db := Tables();
      var smsDue, callsDue := EvaluateSmsCallTimers(cfg, alarms, notifs, now);
      SmsStillDue(cfg, db, now);
      QueueSms(smsDue, now);
      CallsStillDue(cfg, db, smsDue, now);
      ghost var mid := Tables();
      QueueCalls(callsDue, now);
      QueuedInParts(cfg, db, mid, Tables(), smsDue, callsDue, now);
    }

    /** One tick of the loop. Only the leader's loop does anything. */
    method LoopTick(isLeader: bool, online: map<int, bool>, now: Time)
      modifies this
      ensures Tables() == if isLeader then Tick(cfg, old(Tables()), now) else old(Tables())
    {
      if !isLeader {
        return;
      }
      ExpireAcknowledgements(now);
      CancelObsoleteContacts();
      var wakeUps, decisions := EscalateDueAlarms(online, now);
      EnqueueDueContacts(now);
    }

    // ----- escalation on request -----

    method EscalateActiveAlarmsNow(now: Time) returns (escalated: nat)
      modifies this
      ensures Tables() == EscalateNow(cfg, old(Tables()), now)
      ensures |alarms| == |old(alarms)|
      ensures escalated == |set i | 0 <= i < |old(alarms)| && alarms[i] != old(alarms)[i]|
    {
      ghost var db := Tables();
      ghost var targets := AdminTargets(cfg, db);
      escalated := 0;
      NobodyYet(db, targets, now);
      for i := 0 to |alarms|
        invariant |alarms| == |db.alarms| && Tables() == ApplyTargets(db, Upto(targets, i), now)
        invariant escalated == Moves(targets[..i])
      {
        assert targets[..i + 1][..i] == targets[..i];
        OneMoreTarget(db, targets, i, now);
        if Live(alarms[i]) {
          var moved := MoveToNextKnown(i, now);
          escalated := escalated + if moved then 1 else 0;
        }
      }
      assert targets[..|targets|] == targets && Upto(targets, |targets|) == targets;
      MovesCounted(targets);
      MovedAreMovers(db, targets, now);
    }

    /** Moves one alarm to the next existing user of the chain, whatever its status. */
    method MoveToNextKnown(i: nat, now: Time) returns (moved: bool)
      requires i < |alarms|
      modifies this`alarms, this`notifs
      ensures var next := NextKnown(cfg, old(alarms)[i]);
              && moved == next.Some?
              && alarms == (if moved then old(alarms)[i := EscalateTo(old(alarms)[i], next.value, now)] else old(alarms))
              && notifs == (if moved then AddNotified(old(notifs), i, next.value, now) else old(notifs))
    {
      var a := alarms[i];
      var position := CurrentPosition(cfg.chain, a.assignee);
      var next := FindNextUser(cfg.chain, position, a.assignee, KnownUsers(cfg.users));
      KnownOtherIsCandidate(Beyond(cfg.chain, position) + UpTo(cfg.chain, position), a.assignee, KnownUsers(cfg.users));
      if next.None? || Some(next.value.userId) == a.assignee {
        return false;
      }
      alarms := alarms[i := EscalateTo(a, next.value.userId, now)];
      notifs := AddNotified(notifs, i, next.value.userId, now);
      return true;
    }

    // ----- calls -----

    /** A call handed to the gateways of the requested sites: queued, of an alarm still to be answered, and for one of
        the sites; a row without a site is the default site's. */
    predicate HandedOut(i: int, sites: set<string>)
      reads this
    {
      && 0 <= i < |calls|
      && CallPending(calls[i]) && SiteOr(calls[i].site, cfg.defaultSite) in sites && !CallObsolete(Tables(), calls[i])
    }

    /** Ids of the calls handed out, the oldest first. */
    method GetPendingCalls(sites: set<string>) returns (ids: seq<nat>)
      ensures forall i :: i in ids <==> HandedOut(i, sites)
      ensures forall x, y | 0 <= x < y < |ids| :: OlderFirst(calls, ids[x], ids[y])
    {
      ids := [];
      for i := 0 to |calls|
        invariant forall k :: k in ids <==> k < i && HandedOut(k, sites)
        invariant Oldest(calls, ids)
      {
        var c := calls[i];
        if c.calledAt.None? && c.retries < MAX_RETRIES && SiteOr(c.site, cfg.defaultSite) in sites
           && !AlarmIsClosedToContact(alarms, c.alarmId)
        {
          forall x | 0 <= x < |ids| ensures ids[x] < i { assert ids[x] in ids; }
          InsertOldest(calls, i, ids);
          ids := InsertByAge(calls, i, ids);
        }
      }
    }

    method PostResult(callId: nat, result: CallResult, now: Time) returns (found: bool)
      modifies this
      ensures found == (callId < |old(calls)|)
      ensures Tables() == PostCallResult(cfg, old(Tables()), callId, result, now)
    {
      if callId >= |calls| {
        return false;
      }
      ghost var db := Tables();
      var row := calls[callId].(result := Some(result));
      if result != CallError {
        row := row.(calledAt := Some(now));
      }
      match result {
        case AckDtmf => AcknowledgeLive(row.alarmId, row.userId, now);
        case AckSms => AcknowledgeLive(row.alarmId, row.userId, now);
        case EscalateKey =>
          if row.alarmId < |alarms| {
            EscalateOne(row.alarmId, now);
          } else {
            NobodyMoves(cfg, db, row.alarmId, now);
          }
        case _ => row := row.(retries := row.retries + 1);
      }
      calls := calls[callId := row];
      return true;
    }

    method AcknowledgeLive(alarmId: nat, userId: int, now: Time)
      modifies this`alarms
      ensures Tables() == AckIfLive(old(Tables()), alarmId, userId, now)
    {
      if alarmId < |alarms| && Live(alarms[alarmId]) {
        alarms := alarms[alarmId := AckAlarm(alarms[alarmId], userId, now)];
      }
    }

    method EscalateOne(alarmId: nat, now: Time)
      requires alarmId < |alarms|
      modifies this`alarms, this`notifs
      ensures Tables() == ApplyTargets(old(Tables()), KeyTargets(cfg, old(Tables()), alarmId), now)
    {
      OneTarget(cfg, Tables(), alarmId, now);
      var moved := MoveToNextKnown(alarmId, now);
    }

    // ----- alarms -----

    method AcknowledgeBy(alarmId: nat, userId: int, now: Time) returns (allowed: bool)
      modifies this`alarms
      ensures allowed == (alarmId < |old(alarms)| && Notified(notifs, alarmId, userId))
      ensures Tables() == Acknowledge(old(Tables()), alarmId, userId, now)
    {
      if alarmId >= |alarms| || !Notified(notifs, alarmId, userId) {
        return false;
      }
      alarms := alarms[alarmId := AckAlarm(alarms[alarmId], userId, now)];
      return true;
    }

    method AcknowledgeByPhone(phone: string, now: Time) returns (alarmId: Option<nat>)
      modifies this`alarms
      ensures Tables() == AckByPhone(cfg, old(Tables()), phone, now)
      ensures alarmId.Some? ==> alarmId.value < |alarms| && !Live(alarms[alarmId.value])
      ensures forall a: nat :: alarmId == Some(a) <==> exists u :: PhoneFinds(cfg, old(Tables()), phone, a, u)
    {
      PhoneFindsTarget(cfg, Tables(), phone);
      if phone == "" {
        return None;
      }
      var user := UserByPhone(cfg.users, phone);
      if user.None? {
        return None;
      }
      alarmId := PhoneAckTarget(cfg, Tables(), user.value, phone);
      if alarmId.Some? {
        AcknowledgeLive(alarmId.value, user.value, now);
      }
    }

    method ResolveAlarm(alarmId: nat) returns (found: bool)
      modifies this`alarms
      ensures found == (alarmId < |old(alarms)|)
      ensures Tables() == Resolve(old(Tables()), alarmId)
    {
      if alarmId >= |alarms| {
        return false;
      }
      alarms := alarms[alarmId := alarms[alarmId].(status := Resolved)];
      return true;
    }

    method Send(title: string, site: string, requested: Option<int>, now: Time) returns (id: Option<nat>)
      modifies this`alarms, this`notifs
      ensures id == if SendAllowed(cfg, old(Tables()), site) then Some(|old(alarms)|) else None
      ensures id.Some? <==> |alarms| == |old(alarms)| + 1
      ensures Tables() == SendAlarm(cfg, old(Tables()), title, site, requested, now)
    {
      if site !in cfg.knownSites {
        return None;
      }
      if exists a | a in alarms :: Live(a) && a.site == Some(site) {
        return None;
      }
      id := Some(|alarms|);
      InsertAlarm(title, CreationAssignee(cfg, requested), Api, site, now);
    }

    method InsertAlarm(title: string, who: Option<int>, source: Source, site: string, now: Time)
      modifies this`alarms, this`notifs
      ensures Tables() == CreateAlarm(old(Tables()), title, who, source, site, now)
    {
      var id := |alarms|;
      alarms := alarms + [FreshAlarm(title, who, source, site, now)];
      if who.Some? {
        notifs := AddNotified(notifs, id, who.value, now);
      }
    }

    // ----- gateways -----

    method Report(gatewayId: string, open: bool, payloadSite: Option<string>, now: Time)
      returns (alarmActive: bool, dissensus: bool)
      modifies this
      ensures Tables() == ReportState(cfg, old(Tables()), gatewayId, open, payloadSite, now)
      ensures var site := SiteOr(payloadSite, cfg.defaultSite);
              && alarmActive == SomeAlive(cfg, gateways, site, true, now)
              && dissensus == (alarmActive && SomeAlive(cfg, gateways, site, false, now))
    {
      var site := SiteOr(payloadSite, cfg.defaultSite);
      gateways := gateways[gatewayId := Gateway(open, now, Some(site))];

      alarmActive, dissensus := Survey(site, now);
      ReconcileSite(site, alarmActive, now);
      var emailed := FlagSite(site, dissensus, now);
    }

    /** The states reported by the site's gateways heard of lately: is one open, and do they disagree? */
    method Survey(site: string, now: Time) returns (someOpen: bool, divergent: bool)
      ensures someOpen == SomeAlive(cfg, gateways, site, true, now)
      ensures divergent == (someOpen && SomeAlive(cfg, gateways, site, false, now))
    {
      var alive := set id | id in gateways && AliveAt(cfg, gateways[id], site, now);
      someOpen := exists id | id in alive :: gateways[id].open;
      assert someOpen == SomeAlive(cfg, gateways, site, true, now);
      divergent := |alive| >= 2 && (exists id | id in alive :: gateways[id].open)
                   && (exists id | id in alive :: !gateways[id].open);
      DissensusNeedsTwo(gateways, alive);
      assert (exists id | id in alive :: !gateways[id].open) == SomeAlive(cfg, gateways, site, false, now);
    }

    method ReconcileSite(site: string, shouldBeActive: bool, now: Time)
      modifies this`alarms, this`notifs
      ensures Tables() == Reconcile(cfg, old(Tables()), site, shouldBeActive, now)
    {
      var anyActive := FirstOpen(alarms, site);
      if shouldBeActive {
        if anyActive.None? {
          InsertAlarm(GATEWAY_TITLE, CreationAssignee(cfg, None), GatewayDryContact, site, now);
        }
      } else if anyActive.Some? && alarms[anyActive.value].source == GatewayDryContact {
        alarms := alarms[anyActive.value := alarms[anyActive.value].(status := Resolved)];
      }
    }

    method FlagSite(site: string, divergent: bool, now: Time) returns (emailed: bool)
      modifies this`alarms
      ensures Tables() == FlagDissensus(old(Tables()), site, divergent, now)
      ensures var flagged := FirstLiveGatewayAlarm(old(alarms), site, 0);
              emailed == (flagged.Some? && DissensusEmailDue(old(alarms)[flagged.value], divergent, now))
    {
      emailed := false;
      var flagged := FirstLiveGatewayAlarm(alarms, site, 0);
      if flagged.Some? {
        var a := alarms[flagged.value];
        if divergent {
          if a.dissensusSince.None? {
            a := a.(dissensusSince := Some(now));
          } else {
            var elapsed := now - a.dissensusSince.value;
            if elapsed > DISSENSUS_EMAIL_THRESHOLD && a.dissensusEmailAt.None? {
              emailed := true;
              a := a.(dissensusEmailAt := Some(now));
            }
          }
        } else if a.dissensusSince.Some? {
          a := a.(dissensusSince := None, dissensusEmailAt := None);
        }
        alarms := alarms[flagged.value := a];
      }
    }

    // ----- SMS results -----

    method MarkSmsSent(smsId: nat, now: Time) returns (found: bool)
      modifies this`sms
      ensures found == (smsId < |old(sms)|)
      ensures Tables() == MarkSent(old(Tables()), smsId, now)
    {
      if smsId >= |sms| {
        return false;
      }
      sms := sms[smsId := sms[smsId].(sentAt := Some(now))];
      return true;
    }

    method MarkSmsFailed(smsId: nat, error: string) returns (found: bool)
      modifies this`sms
      ensures found == (smsId < |old(sms)|)
      ensures Tables() == MarkSmsError(old(Tables()), smsId, error)
    {
      if smsId >= |sms| {
        return false;
      }
      sms := sms[smsId := sms[smsId].(retries := sms[smsId].retries + 1, error := error)];
      return true;
    }
  }

  // ----- what the methods above need -----

  /** The order of creation, rows of one instant by id. */
  ghost predicate OlderFirst(calls: seq<Call>, i: nat, j: nat) {
    && i < |calls| && j < |calls| && i != j
    && calls[i].createdAt <= calls[j].createdAt && (calls[i].createdAt == calls[j].createdAt ==> i < j)
  }

  ghost predicate Oldest(calls: seq<Call>, ids: seq<nat>) {
    (forall x | 0 <= x < |ids| :: ids[x] < |calls|)
    && forall x, y | 0 <= x < y < |ids| :: OlderFirst(calls, ids[x], ids[y])
  }

  /** Behind every row created no later. */
  function InsertByAge(calls: seq<Call>, i: nat, ids: seq<nat>): seq<nat>
    requires i < |calls| && forall x | 0 <= x < |ids| :: ids[x] < |calls|
  {
    if ids == [] || calls[ids[|ids| - 1]].createdAt <= calls[i].createdAt then ids + [i]
    else InsertByAge(calls, i, ids[..|ids| - 1]) + [ids[|ids| - 1]]
  }

  lemma {:induction false} InsertOldest(calls: seq<Call>, i: nat, ids: seq<nat>)
    requires i < |calls| && Oldest(calls, ids) && forall x | 0 <= x < |ids| :: ids[x] < i
    ensures Oldest(calls, InsertByAge(calls, i, ids))
    ensures forall k :: k in InsertByAge(calls, i, ids) <==> k == i || k in ids
  {
    if ids != [] {
      var init, last := ids[..|ids| - 1], ids[|ids| - 1];
      assert ids == init + [last];
      if calls[last].createdAt <= calls[i].createdAt {
        forall j | j in ids ensures OlderFirst(calls, j, i) {
          var x :| 0 <= x < |ids| && ids[x] == j;
          assert x < |ids| - 1 ==> OlderFirst(calls, ids[x], last);
        }
        OldestOn(calls, ids, i);
      } else {
        InsertOldest(calls, i, init);
        forall j | j in init ensures OlderFirst(calls, j, last) {
          var y :| 0 <= y < |init| && init[y] == j;
          assert OlderFirst(calls, ids[y], ids[|ids| - 1]);
        }
        OldestOn(calls, InsertByAge(calls, i, init), last);
      }
    }
  }

  lemma OldestOn(calls: seq<Call>, ids: seq<nat>, last: nat)
    requires Oldest(calls, ids) && last < |calls| && forall j | j in ids :: OlderFirst(calls, j, last)
    ensures Oldest(calls, ids + [last])
  {
  }

  lemma NobodyYet(db: Db, targets: seq<Option<int>>, now: Time)
    requires |targets| == |db.alarms|
    ensures ApplyTargets(db, Upto(targets, 0), now) == db
  {
    NotifyUpto(db.notifs, targets, 0, now);
    assert ApplyTargets(db, Upto(targets, 0), now).alarms == db.alarms;
  }

  /** How many alarms move. */
  function Moves(targets: seq<Option<int>>): nat {
    if targets == [] then 0
    else Moves(targets[..|targets| - 1]) + if targets[|targets| - 1].Some? then 1 else 0
  }

  function Movers(targets: seq<Option<int>>): set<int> { set i | 0 <= i < |targets| && targets[i].Some? }

  lemma {:induction false} MovesCounted(targets: seq<Option<int>>)
    ensures Moves(targets) == |Movers(targets)|
  {
    if targets != [] {
      var k := |targets| - 1;
      MovesCounted(targets[..k]);
      var before := Movers(targets[..k]);
      assert Movers(targets) == if targets[k].Some? then before + {k} else before;
    }
  }

  /** Exactly the alarms with a target come out different: their count has gone up. */
  lemma MovedAreMovers(db: Db, targets: seq<Option<int>>, now: Time)
    requires |targets| == |db.alarms|
    ensures var alarms' := ApplyTargets(db, targets, now).alarms;
            Movers(targets) == set i | 0 <= i < |db.alarms| && alarms'[i] != db.alarms[i]
  {
    var alarms' := ApplyTargets(db, targets, now).alarms;
    forall i | 0 <= i < |db.alarms| ensures alarms'[i] != db.alarms[i] <==> targets[i].Some? {
      assert targets[i].Some? ==> alarms'[i].escalationCount == db.alarms[i].escalationCount + 1;
    }
  }

  /** The notifications once the listed ones have been marked; an unknown user's stays unmarked. */
  function SmsMarks(cfg: Config, notifs: seq<Notification>, marked: seq<nat>): (r: seq<Notification>)
    ensures |r| == |notifs|
  {
    seq(|notifs|, k requires 0 <= k < |notifs| =>
      if k in marked && FindUser(cfg.users, notifs[k].userId).Some? then notifs[k].(smsSent := true) else notifs[k])
  }

  function CallMarks(cfg: Config, notifs: seq<Notification>, marked: seq<nat>): (r: seq<Notification>)
    ensures |r| == |notifs|
  {
    seq(|notifs|, k requires 0 <= k < |notifs| =>
      if k in marked && FindUser(cfg.users, notifs[k].userId).Some? then notifs[k].(callSent := true) else notifs[k])
  }

  lemma SmsMarksStep(cfg: Config, notifs: seq<Notification>, marked: seq<nat>, i: nat)
    requires i < |notifs| && !notifs[i].smsSent
    ensures var r := SmsMarks(cfg, notifs, marked);
            && r[i].(smsSent := false) == notifs[i]
            && SmsMarks(cfg, notifs, marked + [i])
               == if FindUser(cfg.users, notifs[i].userId).Some? then r[i := r[i].(smsSent := true)] else r
  {
  }

  lemma CallMarksStep(cfg: Config, notifs: seq<Notification>, marked: seq<nat>, i: nat)
    requires i < |notifs| && !notifs[i].callSent
    ensures var r := CallMarks(cfg, notifs, marked);
            && r[i].(callSent := false) == notifs[i]
            && CallMarks(cfg, notifs, marked + [i])
               == if FindUser(cfg.users, notifs[i].userId).Some? then r[i := r[i].(callSent := true)] else r
  {
  }

  /** The rows and the marks once the listed notifications have been handled. */
  ghost predicate SmsSoFar(
      cfg: Config, db: Db, sms: seq<Sms>, notifs: seq<Notification>, done: seq<nat>, now: Time)
  {
    sms == db.sms + FoldSms(cfg, db, done, now) && notifs == SmsMarks(cfg, db.notifs, done)
  }

  lemma SmsOneMore(
      cfg: Config, db: Db, sms: seq<Sms>, notifs: seq<Notification>, sms': seq<Sms>, notifs': seq<Notification>,
      done: seq<nat>, i: nat, now: Time)
    requires i < |db.notifs| && !db.notifs[i].smsSent && SmsSoFar(cfg, db, sms, notifs, done, now)
    requires sms' == sms + SmsFor(cfg, db, db.notifs[i], now)
    requires notifs' == if FindUser(cfg.users, db.notifs[i].userId).Some?
                        then notifs[i := notifs[i].(smsSent := true)] else notifs
    ensures SmsSoFar(cfg, db, sms', notifs', done + [i], now)
  {
    SmsMarksStep(cfg, db.notifs, done, i);
    FoldSmsStep(cfg, db, done, i, db.sms, now);
  }

  lemma FoldSmsStep(cfg: Config, db: Db, due: seq<nat>, i: nat, before: seq<Sms>, now: Time)
    requires i < |db.notifs|
    ensures before + FoldSms(cfg, db, due + [i], now)
            == before + FoldSms(cfg, db, due, now) + SmsFor(cfg, db, db.notifs[i], now)
  {
    assert (due + [i])[..|due|] == due;
  }

  /** The rows and the marks once the listed notifications have been handled. */
  ghost predicate CallsSoFar(
      cfg: Config, db: Db, calls: seq<Call>, notifs: seq<Notification>, done: seq<nat>, now: Time)
  {
    calls == db.calls + FoldCalls(cfg, db, done, now) && notifs == CallMarks(cfg, db.notifs, done)
  }

  lemma CallsOneMore(
      cfg: Config, db: Db, calls: seq<Call>, notifs: seq<Notification>, calls': seq<Call>, notifs': seq<Notification>,
      done: seq<nat>, i: nat, now: Time)
    requires i < |db.notifs| && !db.notifs[i].callSent && CallsSoFar(cfg, db, calls, notifs, done, now)
    requires calls' == calls + CallFor(cfg, db, db.notifs[i], now)
    requires notifs' == if FindUser(cfg.users, db.notifs[i].userId).Some?
                        then notifs[i := notifs[i].(callSent := true)] else notifs
    ensures CallsSoFar(cfg, db, calls', notifs', done + [i], now)
  {
    CallMarksStep(cfg, db.notifs, done, i);
    FoldCallsStep(cfg, db, done, i, db.calls, now);
  }

  lemma FoldCallsStep(cfg: Config, db: Db, due: seq<nat>, i: nat, before: seq<Call>, now: Time)
    requires i < |db.notifs|
    ensures before + FoldCalls(cfg, db, due + [i], now)
            == before + FoldCalls(cfg, db, due, now) + CallFor(cfg, db, db.notifs[i], now)
  {
    assert (due + [i])[..|due|] == due;
  }

  /** Every notification of the list is due, and its mark is off. */
  ghost predicate AllDue(cfg: Config, alarms: seq<Alarm>, notifs: seq<Notification>, due: seq<nat>, now: Time, call: bool) {
    forall i | i in due :: i < |notifs| && ContactDue(cfg, alarms, notifs[i], now)
                           && !(if call then notifs[i].callSent else notifs[i].smsSent)
  }

  lemma SmsStillDue(cfg: Config, db: Db, now: Time)
    ensures AllDue(cfg, db.alarms, db.notifs, DueFor(cfg, db.alarms, db.notifs, now, false), now, false)
  {
    DueForIsExact(cfg, db.alarms, db.notifs, now, false);
  }

  lemma CallsStillDue(cfg: Config, db: Db, smsDue: seq<nat>, now: Time)
    ensures AllDue(cfg, db.alarms, SmsMarks(cfg, db.notifs, smsDue), DueFor(cfg, db.alarms, db.notifs, now, true), now, true)
  {
    DueForIsExact(cfg, db.alarms, db.notifs, now, true);
  }

  lemma BothMarks(cfg: Config, alarms: seq<Alarm>, notifs: seq<Notification>, smsDue: seq<nat>, callsDue: seq<nat>, now: Time)
    requires forall i | 0 <= i < |notifs| :: i in smsDue <==> ContactDue(cfg, alarms, notifs[i], now) && !notifs[i].smsSent
    requires forall i | 0 <= i < |notifs| :: i in callsDue <==> ContactDue(cfg, alarms, notifs[i], now) && !notifs[i].callSent
    ensures CallMarks(cfg, SmsMarks(cfg, notifs, smsDue), callsDue) == MarkAll(cfg, alarms, notifs, now)
  {
    var x := CallMarks(cfg, SmsMarks(cfg, notifs, smsDue), callsDue);
    forall i | 0 <= i < |notifs| ensures x[i] == MarkContacted(cfg, alarms, notifs[i], now) {
      var y := SmsMarks(cfg, notifs, smsDue)[i];
      assert y.userId == notifs[i].userId;
    }
  }

  lemma DueMarks(cfg: Config, db: Db, now: Time)
    ensures var smsDue, callsDue := DueFor(cfg, db.alarms, db.notifs, now, false), DueFor(cfg, db.alarms, db.notifs, now, true);
            CallMarks(cfg, SmsMarks(cfg, db.notifs, smsDue), callsDue) == MarkAll(cfg, db.alarms, db.notifs, now)
  {
    DueForIsExact(cfg, db.alarms, db.notifs, now, false);
    DueForIsExact(cfg, db.alarms, db.notifs, now, true);
    BothMarks(cfg, db.alarms, db.notifs, DueFor(cfg, db.alarms, db.notifs, now, false),
              DueFor(cfg, db.alarms, db.notifs, now, true), now);
  }

  /** The two loops, one after the other, do what the contact section does. */
  lemma QueuedInParts(cfg: Config, db: Db, mid: Db, after: Db, smsDue: seq<nat>, callsDue: seq<nat>, now: Time)
    requires smsDue == DueFor(cfg, db.alarms, db.notifs, now, false) && callsDue == DueFor(cfg, db.alarms, db.notifs, now, true)
    requires mid == db.(notifs := SmsMarks(cfg, db.notifs, smsDue), sms := db.sms + FoldSms(cfg, db, smsDue, now))
    requires after == mid.(notifs := CallMarks(cfg, mid.notifs, callsDue),
                           calls := mid.calls + FoldCalls(cfg, mid, callsDue, now))
    ensures after == EnqueueContacts(cfg, db, now)
  {
    CallsAfterSms(cfg, db, mid, smsDue, callsDue, now);
    DueMarks(cfg, db, now);
    FoldsAreNewRows(cfg, db, now);
    PartsTogether(cfg, db, after, now);
  }

  lemma PartsTogether(cfg: Config, db: Db, after: Db, now: Time)
    requires after.alarms == db.alarms && after.gateways == db.gateways
    requires after.notifs == MarkAll(cfg, db.alarms, db.notifs, now)
    requires after.sms == db.sms + NewSms(cfg, db, db.notifs, now)
    requires after.calls == db.calls + NewCalls(cfg, db, db.notifs, now)
    ensures after == EnqueueContacts(cfg, db, now)
  {
  }

  lemma CallsAfterSms(cfg: Config, db: Db, mid: Db, smsDue: seq<nat>, callsDue: seq<nat>, now: Time)
    requires mid.alarms == db.alarms && mid.calls == db.calls && mid.notifs == SmsMarks(cfg, db.notifs, smsDue)
    ensures FoldCalls(cfg, mid, callsDue, now) == FoldCalls(cfg, db, callsDue, now)
  {
    OnlySmsMarks(cfg, db.notifs, smsDue);
    FoldCallsIgnoresSmsMarks(cfg, db, mid, callsDue, now);
  }

  lemma OnlySmsMarks(cfg: Config, notifs: seq<Notification>, smsDue: seq<nat>)
    ensures var marked := SmsMarks(cfg, notifs, smsDue);
            forall k | 0 <= k < |notifs| :: marked[k] == notifs[k] || marked[k] == notifs[k].(smsSent := true)
  {
  }

  /** Queueing the SMS first does not change which calls are queued. */
  lemma {:induction false} FoldCallsIgnoresSmsMarks(cfg: Config, db: Db, mid: Db, due: seq<nat>, now: Time)
    requires mid.alarms == db.alarms && mid.calls == db.calls && |mid.notifs| == |db.notifs|
    requires forall k | 0 <= k < |db.notifs| ::
               mid.notifs[k] == db.notifs[k] || mid.notifs[k] == db.notifs[k].(smsSent := true)
    ensures FoldCalls(cfg, mid, due, now) == FoldCalls(cfg, db, due, now)
  {
    if due != [] {
      FoldCallsIgnoresSmsMarks(cfg, db, mid, due[..|due| - 1], now);
    }
  }

  lemma {:induction false} DecisionsAreTimely(cfg: Config, db: Db, now: Time, awaiting: set<nat>, k: nat)
    requires AwaitingIs(cfg, db, awaiting) && k <= |db.alarms|
    ensures forall d | d in Decisions(LiveSnapshots(db.alarms[..k]), cfg.chain, cfg.escalationDelay, now, awaiting) ::
              d.alarmId < k && Some(d.toUser) == TimerTarget(cfg, db, d.alarmId, now)
              && d.fromUser == db.alarms[d.alarmId].assignee && (d.withoutCall <==> AwaitsCall(cfg, db, d.alarmId))
  {
    if k > 0 {
      DecisionsAreTimely(cfg, db, now, awaiting, k - 1);
      DecisionsGrow(cfg, db, now, awaiting, k - 1);
    }
  }

  /** At most one decision per alarm, in the alarms' order. */
  ghost predicate InOrder(ds: seq<Decision>, k: nat) {
    (forall m | 0 <= m < |ds| :: ds[m].alarmId < k) && forall m, n | 0 <= m < n < |ds| :: ds[m].alarmId < ds[n].alarmId
  }

  lemma DecisionAppended(ds: seq<Decision>, d: Decision, k: nat)
    requires InOrder(ds, k) && d.alarmId == k
    ensures InOrder(ds + [d], k + 1) && HasDecision(ds + [d], k)
    ensures forall i: nat | HasDecision(ds, i) :: HasDecision(ds + [d], i)
  {
    assert d in ds + [d];
  }

  /** Every alarm below k that the timer moves has its decision, and only one. */
  ghost predicate Covers(cfg: Config, db: Db, now: Time, ds: seq<Decision>, k: nat)
    requires k <= |db.alarms|
  {
    InOrder(ds, k) && forall i | 0 <= i < k && TimerTarget(cfg, db, i, now).Some? :: HasDecision(ds, i)
  }

  lemma CoversOneMore(cfg: Config, db: Db, now: Time, before: seq<Decision>, after: seq<Decision>, k: nat)
    requires k < |db.alarms| && Covers(cfg, db, now, before, k)
    requires match TimerTarget(cfg, db, k, now)
             case None => after == before
             case Some(u) => after == before + [Decision(k, db.alarms[k].assignee, u, AwaitsCall(cfg, db, k))]
    ensures Covers(cfg, db, now, after, k + 1)
  {
    var target := TimerTarget(cfg, db, k, now);
    if target.Some? {
      DecisionAppended(before, Decision(k, db.alarms[k].assignee, target.value, AwaitsCall(cfg, db, k)), k);
    }
  }

  lemma {:induction false} DecisionsCoverMoves(cfg: Config, db: Db, now: Time, awaiting: set<nat>, k: nat)
    requires AwaitingIs(cfg, db, awaiting) && k <= |db.alarms|
    ensures Covers(cfg, db, now,
                   Decisions(LiveSnapshots(db.alarms[..k]), cfg.chain, cfg.escalationDelay, now, awaiting), k)
  {
    if k > 0 {
      DecisionsCoverMoves(cfg, db, now, awaiting, k - 1);
      DecisionsGrow(cfg, db, now, awaiting, k - 1);
      var before := Decisions(LiveSnapshots(db.alarms[..k - 1]), cfg.chain, cfg.escalationDelay, now, awaiting);
      var after := Decisions(LiveSnapshots(db.alarms[..k]), cfg.chain, cfg.escalationDelay, now, awaiting);
      CoversOneMore(cfg, db, now, before, after, k - 1);
    }
  }

  ghost predicate HasDecision(ds: seq<Decision>, alarmId: nat) {
    exists d | d in ds :: d.alarmId == alarmId
  }

  lemma DissensusNeedsTwo(gateways: map<string, Gateway>, alive: set<string>)
    requires forall id | id in alive :: id in gateways
    ensures (exists id | id in alive :: gateways[id].open) && (exists id | id in alive :: !gateways[id].open)
            ==> |alive| >= 2
  {
    if (exists id | id in alive :: gateways[id].open) && (exists id | id in alive :: !gateways[id].open) {
      var x :| x in alive && gateways[x].open;
      var y :| y in alive && !gateways[y].open;
      assert {x, y} <= alive && x != y;
      assert alive == {x, y} + (alive - {x, y});
      assert |alive| == |{x, y}| + |alive - {x, y}|;
    }
  }

  lemma {:induction false} NobodyNotified(notifs: seq<Notification>, targets: seq<Option<int>>, now: Time)
    requires forall i | 0 <= i < |targets| :: targets[i].None?
    ensures NotifyTargets(notifs, targets, now) == notifs
  {
    if targets != [] {
      NobodyNotified(notifs, targets[..|targets| - 1], now);
    }
  }

  lemma NobodyMoves(cfg: Config, db: Db, alarmId: nat, now: Time)
    requires alarmId >= |db.alarms|
    ensures ApplyTargets(db, KeyTargets(cfg, db, alarmId), now) == db
  {
    NobodyNotified(db.notifs, KeyTargets(cfg, db, alarmId), now);
    assert ApplyTargets(db, KeyTargets(cfg, db, alarmId), now).alarms == db.alarms;
  }

  lemma OneTarget(cfg: Config, db: Db, alarmId: nat, now: Time)
    requires alarmId < |db.alarms|
    ensures var next := NextKnown(cfg, db.alarms[alarmId]);
            ApplyTargets(db, KeyTargets(cfg, db, alarmId), now)
            == if next.None? then db
               else db.(alarms := db.alarms[alarmId := EscalateTo(db.alarms[alarmId], next.value, now)],
                        notifs := AddNotified(db.notifs, alarmId, next.value, now))
  {
    var targets, next := KeyTargets(cfg, db, alarmId), NextKnown(cfg, db.alarms[alarmId]);
    OnlyOneNotified(db.notifs, targets, alarmId, now);
    var after := ApplyTargets(db, targets, now);
    assert after.alarms == if next.None? then db.alarms
                           else db.alarms[alarmId := EscalateTo(db.alarms[alarmId], next.value, now)];
  }
}
