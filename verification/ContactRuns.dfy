/** SMS and call queues over whole runs: who is contacted how often, when, and what happens to a queued call. */
module ContactRuns {
  import opened Basics
  import opened EscalationChain
  import opened AlarmTables
  import opened AlarmSteps
  import opened EscalationRuns

  // ----- counting -----

  /** Calls ever queued for a user and an alarm. */
  function CallRows(calls: seq<Call>, a: nat, u: int): nat {
    if calls == [] then 0
    else
      var c := calls[|calls| - 1];
      CallRows(calls[..|calls| - 1], a, u) + if c.alarmId == a && c.userId == u then 1 else 0
  }

  /** Notifications of the user for the alarm that are marked as called. */
  function CallFlags(notifs: seq<Notification>, a: nat, u: int): nat {
    if notifs == [] then 0
    else
      var n := notifs[|notifs| - 1];
      CallFlags(notifs[..|notifs| - 1], a, u) + if n.alarmId == a && n.userId == u && n.callSent then 1 else 0
  }

  lemma {:induction false} CallRowsConcat(x: seq<Call>, y: seq<Call>, a: nat, u: int)
    ensures CallRows(x + y, a, u) == CallRows(x, a, u) + CallRows(y, a, u)
  {
    if y == [] {
      assert x + y == x;
    } else {
      assert (x + y)[..|x + y| - 1] == x + y[..|y| - 1];
      CallRowsConcat(x, y[..|y| - 1], a, u);
    }
  }

  lemma {:induction false} SameCallRows(x: seq<Call>, y: seq<Call>, a: nat, u: int)
    requires |x| == |y|
    requires forall i | 0 <= i < |x| :: x[i].alarmId == y[i].alarmId && x[i].userId == y[i].userId
    ensures CallRows(x, a, u) == CallRows(y, a, u)
  {
    if x != [] {
      SameCallRows(x[..|x| - 1], y[..|y| - 1], a, u);
    }
  }

  lemma {:induction false} SameCallFlags(x: seq<Notification>, y: seq<Notification>, a: nat, u: int)
    requires |x| == |y|
    requires forall i | 0 <= i < |x| :: x[i].alarmId == y[i].alarmId && x[i].userId == y[i].userId
    requires forall i | 0 <= i < |x| && x[i].alarmId == a :: x[i].callSent == y[i].callSent
    ensures CallFlags(x, a, u) == CallFlags(y, a, u)
  {
    if x != [] {
      SameCallFlags(x[..|x| - 1], y[..|y| - 1], a, u);
    }
  }

  /** With one notification per user and alarm, at most one of them carries the mark. */
  lemma {:induction false} OneFlagAtMost(notifs: seq<Notification>, a: nat, u: int)
    requires UniqueNotifs(notifs)
    ensures CallFlags(notifs, a, u) <= 1
    ensures !Notified(notifs, a, u) ==> CallFlags(notifs, a, u) == 0
  {
    if notifs != [] {
      var init := notifs[..|notifs| - 1];
      assert notifs == init + [notifs[|notifs| - 1]];
      OneFlagAtMost(init, a, u);
    }
  }

  // ----- what the contact section of a tick adds -----

  lemma MarkAllInit(cfg: Config, db: Db, notifs: seq<Notification>, now: Time)
    requires notifs != []
    ensures var k := |notifs| - 1;
            && MarkAll(cfg, db.alarms, notifs, now)[..k] == MarkAll(cfg, db.alarms, notifs[..k], now)
            && MarkAll(cfg, db.alarms, notifs, now)[k] == MarkContacted(cfg, db.alarms, notifs[k], now)
  {
  }

  lemma SinglePlusRow(c: seq<Call>, a: nat, u: int)
    requires |c| <= 1
    ensures CallRows(c, a, u) == if |c| == 1 && c[0].alarmId == a && c[0].userId == u then 1 else 0
  {
    if |c| == 1 { assert c[..0] == []; }
  }

  /** Every call queued turns one mark on, and no mark is turned off. */
  lemma {:induction false} NewCallsRaiseFlags(cfg: Config, db: Db, notifs: seq<Notification>, now: Time, a: nat, u: int)
    ensures CallFlags(notifs, a, u) + CallRows(NewCalls(cfg, db, notifs, now), a, u)
            <= CallFlags(MarkAll(cfg, db.alarms, notifs, now), a, u)
  {
    if notifs != [] {
      var k := |notifs| - 1;
      NewCallsRaiseFlags(cfg, db, notifs[..k], now, a, u);
      MarkAllInit(cfg, db, notifs, now);
      CallRowsConcat(NewCalls(cfg, db, notifs[..k], now), CallFor(cfg, db, notifs[k], now), a, u);
      SinglePlusRow(CallFor(cfg, db, notifs[k], now), a, u);
    }
  }

  /** Each call queued belongs to a notification that is due, not yet called, and of a live alarm. */
  ghost predicate CallFrom(cfg: Config, db: Db, n: Notification, c: Call, now: Time) {
    && ContactDue(cfg, db.alarms, n, now) && !n.callSent
    && c.alarmId == n.alarmId && c.userId == n.userId && PhoneOf(cfg.users, n.userId) == Some(c.toNumber)
    && c.createdAt == now && CallPending(c) && c.site == Some(SiteOr(db.alarms[n.alarmId].site, cfg.defaultSite))
    && !CallQueued(db.calls, c.toNumber, c.alarmId)
  }

  lemma {:induction false} NewCallsJustified(cfg: Config, db: Db, notifs: seq<Notification>, now: Time)
    ensures forall c | c in NewCalls(cfg, db, notifs, now) :: exists n | n in notifs :: CallFrom(cfg, db, n, c, now)
  {
    if notifs != [] {
      var k := |notifs| - 1;
      NewCallsJustified(cfg, db, notifs[..k], now);
      forall c | c in NewCalls(cfg, db, notifs, now)
        ensures exists n | n in notifs :: CallFrom(cfg, db, n, c, now)
      {
        if c in CallFor(cfg, db, notifs[k], now) {
          assert CallFrom(cfg, db, notifs[k], c, now);
        } else {
          assert c in NewCalls(cfg, db, notifs[..k], now);
          var n :| n in notifs[..k] && CallFrom(cfg, db, n, c, now);
          assert n in notifs;
        }
      }
    }
  }

  // ----- one step -----

  /** The step restarts alarm a's contact cycle: its acknowledgement expired. */
  ghost predicate Restarts(db: Db, ev: Event, now: Time, a: nat) {
    ev.LoopTick? && a < |db.alarms| && AckExpired(db.alarms[a], now)
  }

  lemma AddNotifiedFlags(notifs: seq<Notification>, x: nat, y: int, now: Time, a: nat, u: int)
    ensures CallFlags(AddNotified(notifs, x, y, now), a, u) == CallFlags(notifs, a, u)
  {
    var after := AddNotified(notifs, x, y, now);
    if after != notifs {
      assert after[..|after| - 1] == notifs;
    }
  }

  lemma {:induction false} NotifyTargetsFlags(notifs: seq<Notification>, targets: seq<Option<int>>, now: Time)
    requires UniqueNotifs(notifs)
    ensures var after := NotifyTargets(notifs, targets, now);
            && UniqueNotifs(after)
            && forall a, u :: CallFlags(after, a, u) == CallFlags(notifs, a, u)
  {
    if targets != [] {
      var k := |targets| - 1;
      NotifyTargetsFlags(notifs, targets[..k], now);
      var before := NotifyTargets(notifs, targets[..k], now);
      if targets[k].Some? {
        AddNotifiedAdds(before, k, targets[k].value, now);
        forall a, u ensures CallFlags(NotifyTargets(notifs, targets, now), a, u) == CallFlags(notifs, a, u) {
          AddNotifiedFlags(before, k, targets[k].value, now, a, u);
        }
      }
    }
  }

  /** Queue growth is paid for by marks, and marks only go on. */
  ghost predicate Paid(db: Db, db': Db, a: nat, u: int) {
    CallRows(db'.calls, a, u) - CallRows(db.calls, a, u) <= CallFlags(db'.notifs, a, u) - CallFlags(db.notifs, a, u)
  }

  lemma TickPaid(cfg: Config, db: Db, now: Time, a: nat, u: int)
    requires UniqueNotifs(db.notifs) && !Restarts(db, LoopTick, now, a)
    ensures UniqueNotifs(Tick(cfg, db, now).notifs)
    ensures Paid(db, Tick(cfg, db, now), a, u)
  {
    var d1 := ExpireAcks(db, now);
    SameCallFlags(db.notifs, d1.notifs, a, u);
    var d2 := CancelObsolete(cfg, d1);
    SameCallRows(d1.calls, d2.calls, a, u);
    var d3 := EscalateByTimer(cfg, d2, now);
    NotifyTargetsFlags(d2.notifs, TimerTargets(cfg, d2, now), now);
    var d4 := EnqueueContacts(cfg, d3, now);
    assert d4.notifs == MarkAll(cfg, d3.alarms, d3.notifs, now);
    NewCallsRaiseFlags(cfg, d3, d3.notifs, now, a, u);
    CallRowsConcat(d3.calls, NewCalls(cfg, d3, d3.notifs, now), a, u);
  }

  lemma CreateKeepsFlags(db: Db, title: string, who: Option<int>, source: Source, site: string, now: Time)
    requires UniqueNotifs(db.notifs)
    ensures var db' := CreateAlarm(db, title, who, source, site, now);
            UniqueNotifs(db'.notifs) && db'.calls == db.calls && db'.sms == db.sms
            && forall a, u :: CallFlags(db'.notifs, a, u) == CallFlags(db.notifs, a, u)
  {
    if who.Some? {
      AddNotifiedAdds(db.notifs, |db.alarms|, who.value, now);
      forall a, u ensures CallFlags(AddNotified(db.notifs, |db.alarms|, who.value, now), a, u)
                          == CallFlags(db.notifs, a, u)
      {
        AddNotifiedFlags(db.notifs, |db.alarms|, who.value, now, a, u);
      }
    }
  }

  lemma ResultPaid(cfg: Config, db: Db, c: nat, r: CallResult, now: Time, a: nat, u: int)
    requires UniqueNotifs(db.notifs)
    ensures var db' := PostCallResult(cfg, db, c, r, now); UniqueNotifs(db'.notifs) && Paid(db, db', a, u)
  {
    if c < |db.calls| {
      var db1 := db.(calls := db.calls[c := CallAfter(db.calls[c], r, now)]);
      SameCallRows(db.calls, db1.calls, a, u);
      NotifyTargetsFlags(db.notifs, KeyTargets(cfg, db1, db.calls[c].alarmId), now);
    }
  }

  lemma ReportPaid(cfg: Config, db: Db, g: string, open: bool, s: Option<string>, now: Time, a: nat, u: int)
    requires UniqueNotifs(db.notifs)
    ensures var db' := ReportState(cfg, db, g, open, s, now); UniqueNotifs(db'.notifs) && Paid(db, db', a, u)
  {
    var site := SiteOr(s, cfg.defaultSite);
    CreateKeepsFlags(db.(gateways := db.gateways[g := Gateway(open, now, Some(site))]),
                     GATEWAY_TITLE, CreationAssignee(cfg, None), GatewayDryContact, site, now);
  }

  lemma StepPaid(cfg: Config, db: Db, ev: Event, now: Time, a: nat, u: int)
    requires UniqueNotifs(db.notifs) && !Restarts(db, ev, now, a)
    ensures UniqueNotifs(Step(cfg, db, ev, now).notifs)
    ensures Paid(db, Step(cfg, db, ev, now), a, u)
  {
    match ev
    case LoopTick => TickPaid(cfg, db, now, a, u);
    case AdminEscalate => NotifyTargetsFlags(db.notifs, AdminTargets(cfg, db), now);
    case CallResultPosted(c, r) => ResultPaid(cfg, db, c, r, now, a, u);
    case Send(t, s, who) => CreateKeepsFlags(db, t, CreationAssignee(cfg, who), Api, s, now);
    case Report(g, o, s) => ReportPaid(cfg, db, g, o, s, now, a, u);
    case Ack(_, _) =>
    case PhoneAck(_) =>
    case ResolveAlarm(_) =>
    case SmsSent(_) =>
    case SmsFailed(_, _) =>
  }

  // ----- at most one contact per cycle -----

  ghost predicate PaidAt(states: seq<Db>, a: nat, u: int, k: nat)
    requires k + 1 < |states|
  {
    Paid(states[k], states[k + 1], a, u)
  }

  ghost predicate RestartsAt(states: seq<Db>, run: seq<Moment>, a: nat, k: nat)
    requires k < |run| <= |states|
  {
    Restarts(states[k], run[k].event, run[k].now, a)
  }

  lemma {:induction false} RunKeepsUnique(cfg: Config, states: seq<Db>, run: seq<Moment>, k: nat)
    requires IsRun(cfg, states, run) && UniqueNotifs(states[0].notifs) && k <= |run|
    ensures UniqueNotifs(states[k].notifs)
  {
    if k > 0 {
      RunKeepsUnique(cfg, states, run, k - 1);
      StepKeepsUnique(cfg, states, run, k - 1);
    }
  }

  lemma StepKeepsUnique(cfg: Config, states: seq<Db>, run: seq<Moment>, k: nat)
    requires IsRun(cfg, states, run) && k < |run| && UniqueNotifs(states[k].notifs)
    ensures UniqueNotifs(states[k + 1].notifs)
  {
    assert Stepped(cfg, states, run, k);
    StepPaid(cfg, states[k], run[k].event, run[k].now, |states[k].alarms|, 0);
  }

  lemma RunStepPaid(cfg: Config, states: seq<Db>, run: seq<Moment>, a: nat, u: int, k: nat)
    requires IsRun(cfg, states, run) && k < |run| && UniqueNotifs(states[k].notifs)
    requires !RestartsAt(states, run, a, k)
    ensures PaidAt(states, a, u, k)
  {
    assert Stepped(cfg, states, run, k);
    StepPaid(cfg, states[k], run[k].event, run[k].now, a, u);
  }

  lemma {:induction false} RunPaid(cfg: Config, states: seq<Db>, run: seq<Moment>, a: nat, u: int, i: nat, k: nat)
    requires IsRun(cfg, states, run) && UniqueNotifs(states[0].notifs) && i <= k <= |run|
    requires forall j | i <= j < k :: !RestartsAt(states, run, a, j)
    ensures Paid(states[i], states[k], a, u)
  {
    if i < k {
      RunPaid(cfg, states, run, a, u, i, k - 1);
      RunKeepsUnique(cfg, states, run, k - 1);
      RunStepPaid(cfg, states, run, a, u, k - 1);
    }
  }

  /** Between two expiries of its acknowledgement an alarm queues at most one call per user, and none for a user
      whose notification already carries the mark. */
  lemma OneCallPerCycle(cfg: Config, states: seq<Db>, run: seq<Moment>, a: nat, u: int, i: nat, k: nat)
    requires IsRun(cfg, states, run) && UniqueNotifs(states[0].notifs) && i <= k <= |run|
    requires forall j | i <= j < k :: !RestartsAt(states, run, a, j)
    ensures CallRows(states[k].calls, a, u) <= CallRows(states[i].calls, a, u) + 1
    ensures CallFlags(states[i].notifs, a, u) == 1 ==> CallRows(states[k].calls, a, u) <= CallRows(states[i].calls, a, u)
  {
    RunPaid(cfg, states, run, a, u, i, k);
    RunKeepsUnique(cfg, states, run, k);
    OneFlagAtMost(states[k].notifs, a, u);
  }

  // ----- at most one SMS per cycle -----

  ghost predicate SmsMarked(notifs: seq<Notification>, a: nat, u: int) {
    exists i | 0 <= i < |notifs| :: notifs[i].alarmId == a && notifs[i].userId == u && notifs[i].smsSent
  }

  /** The tick's contact section queues an SMS for the user's notification of alarm a. */
  ghost predicate QueuesSms(cfg: Config, db: Db, ev: Event, now: Time, a: nat, u: int) {
    && ev.LoopTick?
    && var mid := EscalateByTimer(cfg, BeforeEscalation(cfg, db, now), now);
       exists i | 0 <= i < |mid.notifs| ::
         mid.notifs[i].alarmId == a && mid.notifs[i].userId == u && SmsFor(cfg, mid, mid.notifs[i], now) != []
  }

  lemma {:induction false} NotifyTargetsExtends(notifs: seq<Notification>, targets: seq<Option<int>>, now: Time)
    ensures notifs <= NotifyTargets(notifs, targets, now)
    ensures forall i | |notifs| <= i < |NotifyTargets(notifs, targets, now)| ::
              var n := NotifyTargets(notifs, targets, now)[i]; n == NewNotification(n.alarmId, n.userId, now)
  {
    if targets != [] {
      NotifyTargetsExtends(notifs, targets[..|targets| - 1], now);
    }
  }

  lemma StepKeepsMark(cfg: Config, db: Db, ev: Event, now: Time, a: nat, u: int)
    requires !Restarts(db, ev, now, a) && SmsMarked(db.notifs, a, u)
    ensures SmsMarked(Step(cfg, db, ev, now).notifs, a, u)
  {
    var i :| 0 <= i < |db.notifs| && db.notifs[i].alarmId == a && db.notifs[i].userId == u && db.notifs[i].smsSent;
    var db' := Step(cfg, db, ev, now);
    match ev {
      case LoopTick =>
        var mid := BeforeEscalation(cfg, db, now);
        NotifyTargetsExtends(mid.notifs, TimerTargets(cfg, mid, now), now);
        assert mid.notifs[i] == db.notifs[i];
      case AdminEscalate => NotifyTargetsExtends(db.notifs, AdminTargets(cfg, db), now);
      case CallResultPosted(c, r) =>
        if c < |db.calls| {
          var db1 := db.(calls := db.calls[c := CallAfter(db.calls[c], r, now)]);
          NotifyTargetsExtends(db.notifs, KeyTargets(cfg, db1, db.calls[c].alarmId), now);
        }
      case _ =>
    }
    assert db'.notifs[i].alarmId == a && db'.notifs[i].userId == u && db'.notifs[i].smsSent;
  }

  /** Queueing an SMS turns the notification's mark on: it was off, or nobody had been notified. */
  lemma QueueingMarks(cfg: Config, db: Db, ev: Event, now: Time, a: nat, u: int)
    requires UniqueNotifs(db.notifs) && !Restarts(db, ev, now, a) && QueuesSms(cfg, db, ev, now, a, u)
    ensures !SmsMarked(db.notifs, a, u) && SmsMarked(Step(cfg, db, ev, now).notifs, a, u)
  {
    QueueingFindsMarkOff(cfg, db, now, a, u);
    QueueingTurnsMarkOn(cfg, db, now, a, u);
  }

  lemma QueueingTurnsMarkOn(cfg: Config, db: Db, now: Time, a: nat, u: int)
    requires QueuesSms(cfg, db, LoopTick, now, a, u)
    ensures SmsMarked(Tick(cfg, db, now).notifs, a, u)
  {
    var mid, db' := EscalateByTimer(cfg, BeforeEscalation(cfg, db, now), now), Tick(cfg, db, now);
    var i :| 0 <= i < |mid.notifs|
             && mid.notifs[i].alarmId == a && mid.notifs[i].userId == u && SmsFor(cfg, mid, mid.notifs[i], now) != [];
    assert db'.notifs[i] == MarkContacted(cfg, mid.alarms, mid.notifs[i], now);
    assert db'.notifs[i].smsSent;
  }

  lemma QueueingFindsMarkOff(cfg: Config, db: Db, now: Time, a: nat, u: int)
    requires UniqueNotifs(db.notifs) && !Restarts(db, LoopTick, now, a) && QueuesSms(cfg, db, LoopTick, now, a, u)
    ensures !SmsMarked(db.notifs, a, u)
  {
    var before := BeforeEscalation(cfg, db, now);
    var mid := EscalateByTimer(cfg, before, now);
    NotifyTargetsExtends(before.notifs, TimerTargets(cfg, before, now), now);
    SameUnique(db.notifs, before.notifs);
    NotifyTargetsFlags(before.notifs, TimerTargets(cfg, before, now), now);
    forall j | 0 <= j < |db.notifs| && db.notifs[j].alarmId == a && db.notifs[j].userId == u
      ensures !db.notifs[j].smsSent
    {
      assert mid.notifs[j] == before.notifs[j] == db.notifs[j];
    }
  }

  /** SMS queued for the user's notification of alarm a by the steps i..k-1. */
  ghost function SmsQueuedFor(cfg: Config, states: seq<Db>, run: seq<Moment>, a: nat, u: int, i: nat, k: nat): nat
    requires i <= k <= |run| <= |states|
  {
    if k == i then 0
    else
      SmsQueuedFor(cfg, states, run, a, u, i, k - 1)
      + if QueuesSms(cfg, states[k - 1], run[k - 1].event, run[k - 1].now, a, u) then 1 else 0
  }

  ghost predicate QueuesSmsAt(cfg: Config, states: seq<Db>, run: seq<Moment>, a: nat, u: int, k: nat)
    requires k < |run| <= |states|
  {
    QueuesSms(cfg, states[k], run[k].event, run[k].now, a, u)
  }

  lemma MarkAt(cfg: Config, states: seq<Db>, run: seq<Moment>, a: nat, u: int, k: nat)
    requires IsRun(cfg, states, run) && k < |run| && UniqueNotifs(states[k].notifs)
    requires !RestartsAt(states, run, a, k)
    ensures SmsMarked(states[k].notifs, a, u) ==>
              SmsMarked(states[k + 1].notifs, a, u) && !QueuesSmsAt(cfg, states, run, a, u, k)
    ensures QueuesSmsAt(cfg, states, run, a, u, k) ==> SmsMarked(states[k + 1].notifs, a, u)
  {
    assert Stepped(cfg, states, run, k);
    if SmsMarked(states[k].notifs, a, u) {
      StepKeepsMark(cfg, states[k], run[k].event, run[k].now, a, u);
    }
    if QueuesSmsAt(cfg, states, run, a, u, k) {
      QueueingMarks(cfg, states[k], run[k].event, run[k].now, a, u);
    }
  }

  /** Between two expiries of its acknowledgement an alarm queues at most one SMS per user, and none for a user
      whose notification already carries the mark. */
  lemma {:induction false} OneSmsPerCycle(
      cfg: Config, states: seq<Db>, run: seq<Moment>, a: nat, u: int, i: nat, k: nat)
    requires IsRun(cfg, states, run) && UniqueNotifs(states[0].notifs) && i <= k <= |run|
    requires forall j | i <= j < k :: !RestartsAt(states, run, a, j)
    ensures SmsQueuedFor(cfg, states, run, a, u, i, k) <= 1
    ensures SmsMarked(states[i].notifs, a, u) ==> SmsQueuedFor(cfg, states, run, a, u, i, k) == 0
    ensures SmsMarked(states[i].notifs, a, u) || SmsQueuedFor(cfg, states, run, a, u, i, k) == 1
            ==> SmsMarked(states[k].notifs, a, u)
  {
    if i < k {
      OneSmsPerCycle(cfg, states, run, a, u, i, k - 1);
      RunKeepsUnique(cfg, states, run, k - 1);
      MarkAt(cfg, states, run, a, u, k - 1);
      assert QueuesSmsAt(cfg, states, run, a, u, k - 1)
             == QueuesSms(cfg, states[k - 1], run[k - 1].event, run[k - 1].now, a, u);
    }
  }

  lemma SameUnique(x: seq<Notification>, y: seq<Notification>)
    requires UniqueNotifs(x) && |x| == |y|
    requires forall i | 0 <= i < |x| :: x[i].alarmId == y[i].alarmId && x[i].userId == y[i].userId
    ensures UniqueNotifs(y)
  {
  }

  /** A call queued by a tick is for a live alarm and a notification at least the contact delay old, to its user's
      number, through the modem of the alarm's site; no call of the alarm was waiting for that number. */
  lemma CallsAreDue(cfg: Config, db: Db, now: Time, i: nat)
    requires |db.calls| <= i < |Tick(cfg, db, now).calls|
    ensures var db', c := Tick(cfg, db, now), Tick(cfg, db, now).calls[i];
            && c.createdAt == now && CallPending(c)
            && c.alarmId < |db'.alarms| && Live(db'.alarms[c.alarmId])
            && PhoneOf(cfg.users, c.userId) == Some(c.toNumber)
            && c.site == Some(SiteOr(db'.alarms[c.alarmId].site, cfg.defaultSite))
            && !CallQueued(db'.calls[..|db.calls|], c.toNumber, c.alarmId)
            && exists n | n in db'.notifs ::
                 n.alarmId == c.alarmId && n.userId == c.userId && n.callSent
                 && n.notifiedAt.Some? && n.notifiedAt.value + cfg.contactDelay <= now
  {
    var d3 := EscalateByTimer(cfg, BeforeEscalation(cfg, db, now), now);
    var db' := EnqueueContacts(cfg, d3, now);
    NewCallsJustified(cfg, d3, d3.notifs, now);
    var c := db'.calls[i];
    assert c == NewCalls(cfg, d3, d3.notifs, now)[i - |db.calls|];
    assert c in NewCalls(cfg, d3, d3.notifs, now);
    assert db'.calls[..|db.calls|] == d3.calls;
    var n :| n in d3.notifs && CallFrom(cfg, d3, n, c, now);
    var j :| 0 <= j < |d3.notifs| && d3.notifs[j] == n;
    assert db'.notifs[j] == MarkContacted(cfg, d3.alarms, n, now);
    assert db'.notifs[j] in db'.notifs;
  }

  lemma {:induction false} NewSmsJustified(cfg: Config, db: Db, notifs: seq<Notification>, now: Time)
    ensures forall s | s in NewSms(cfg, db, notifs, now) :: exists n | n in notifs :: SmsFor(cfg, db, n, now) == [s]
  {
    if notifs != [] {
      var k := |notifs| - 1;
      NewSmsJustified(cfg, db, notifs[..k], now);
      forall s | s in NewSms(cfg, db, notifs, now) ensures exists n | n in notifs :: SmsFor(cfg, db, n, now) == [s] {
        if s in SmsFor(cfg, db, notifs[k], now) {
          assert SmsFor(cfg, db, notifs[k], now) == [s];
        } else {
          var n :| n in notifs[..k] && SmsFor(cfg, db, n, now) == [s];
          assert n in notifs;
        }
      }
    }
  }

  ghost predicate SameTextQueued(sms: seq<Sms>, s: Sms) {
    exists x | x in sms :: x.toNumber == s.toNumber && x.body == s.body && SmsPending(x)
  }

  /** An SMS queued by a tick is counted for a notification at least the contact delay old, of a live alarm, and
      carries that user's number and that alarm's text; it goes through the modem of the alarm's site, and no SMS with
      the same text was waiting for that number. */
  lemma SmsAreDue(cfg: Config, db: Db, now: Time, i: nat)
    requires |db.sms| <= i < |Tick(cfg, db, now).sms|
    ensures var db', s := Tick(cfg, db, now), Tick(cfg, db, now).sms[i];
            s.createdAt == now && SmsPending(s) && !SameTextQueued(db'.sms[..|db.sms|], s)
            && exists n | n in db'.notifs ::
                 && QueuesSms(cfg, db, LoopTick, now, n.alarmId, n.userId) && n.smsSent
                 && n.notifiedAt.Some? && n.notifiedAt.value + cfg.contactDelay <= now
                 && n.alarmId < |db'.alarms| && Live(db'.alarms[n.alarmId])
                 && PhoneOf(cfg.users, n.userId) == Some(s.toNumber) && s.body == BodyOf(db'.alarms[n.alarmId])
                 && s.site == Some(SiteOr(db'.alarms[n.alarmId].site, cfg.defaultSite))
  {
    var d3 := EscalateByTimer(cfg, BeforeEscalation(cfg, db, now), now);
    var s := NewSms(cfg, d3, d3.notifs, now)[i - |db.sms|];
    assert s == Tick(cfg, db, now).sms[i] && s in NewSms(cfg, d3, d3.notifs, now);
    NewSmsJustified(cfg, d3, d3.notifs, now);
    var n :| n in d3.notifs && SmsFor(cfg, d3, n, now) == [s];
    var j :| 0 <= j < |d3.notifs| && d3.notifs[j] == n;
    assert Tick(cfg, db, now).sms[..|db.sms|] == d3.sms;
    SmsRowIsDue(cfg, db, now, d3, j, s);
  }

  lemma SmsRowIsDue(cfg: Config, db: Db, now: Time, d3: Db, j: nat, s: Sms)
    requires d3 == EscalateByTimer(cfg, BeforeEscalation(cfg, db, now), now)
    requires j < |d3.notifs| && SmsFor(cfg, d3, d3.notifs[j], now) == [s]
    ensures var db' := Tick(cfg, db, now);
            && j < |db'.notifs|
            && var n := db'.notifs[j];
               && n in db'.notifs
               && QueuesSms(cfg, db, LoopTick, now, n.alarmId, n.userId) && n.smsSent
               && n.notifiedAt.Some? && n.notifiedAt.value + cfg.contactDelay <= now
               && n.alarmId < |db'.alarms| && Live(db'.alarms[n.alarmId])
               && PhoneOf(cfg.users, n.userId) == Some(s.toNumber) && s.body == BodyOf(db'.alarms[n.alarmId])
               && s.site == Some(SiteOr(db'.alarms[n.alarmId].site, cfg.defaultSite))
               && s.createdAt == now && SmsPending(s) && !SameTextQueued(d3.sms, s)
  {
    var db' := Tick(cfg, db, now);
    assert db' == EnqueueContacts(cfg, d3, now);
    assert db'.notifs[j] == MarkContacted(cfg, d3.alarms, d3.notifs[j], now);
  }

  // ----- at most one pending call per number and alarm -----

  ghost predicate DistinctNumbers(users: seq<User>) {
    forall u, v | PhoneOf(users, u).Some? && PhoneOf(users, u) == PhoneOf(users, v) :: u == v
  }

  ghost predicate SameLine(c: Call, d: Call) {
    CallPending(c) && CallPending(d) && c.toNumber == d.toNumber && c.alarmId == d.alarmId
  }

  ghost predicate NoDoubleCall(calls: seq<Call>) {
    forall i, j | 0 <= i < j < |calls| :: !SameLine(calls[i], calls[j])
  }

  /** Two notifications of one alarm are both about to queue a call to the same number. */
  ghost predicate Twins(cfg: Config, db: Db, now: Time) { TwinsAmong(cfg, db, db.notifs, now) }

  ghost predicate TwinCalls(cfg: Config, db: Db, m: Notification, n: Notification, now: Time) {
    && CallFor(cfg, db, m, now) != [] && CallFor(cfg, db, n, now) != []
    && m.alarmId == n.alarmId && PhoneOf(cfg.users, m.userId) == PhoneOf(cfg.users, n.userId)
  }

  lemma NoDoubleAppend(x: seq<Call>, y: seq<Call>)
    ensures NoDoubleCall(x + y) <==>
            && NoDoubleCall(x) && NoDoubleCall(y)
            && forall i, j | 0 <= i < |x| && 0 <= j < |y| :: !SameLine(x[i], y[j])
  {
    var z := x + y;
    if NoDoubleCall(z) {
      forall i, j | 0 <= i < j < |x| ensures !SameLine(x[i], x[j]) { assert z[i] == x[i] && z[j] == x[j]; }
      forall i, j | 0 <= i < j < |y| ensures !SameLine(y[i], y[j]) {
        assert z[|x| + i] == y[i] && z[|x| + j] == y[j];
      }
      forall i, j | 0 <= i < |x| && 0 <= j < |y| ensures !SameLine(x[i], y[j]) {
        assert z[i] == x[i] && z[|x| + j] == y[j];
      }
    }
  }

  ghost predicate TwinsAmong(cfg: Config, db: Db, notifs: seq<Notification>, now: Time) {
    exists i, j | 0 <= i < j < |notifs| :: TwinCalls(cfg, db, notifs[i], notifs[j], now)
  }

  ghost predicate TwinOf(cfg: Config, db: Db, notifs: seq<Notification>, n: Notification, now: Time) {
    exists m | m in notifs :: TwinCalls(cfg, db, m, n, now)
  }

  lemma TwinsSplit(cfg: Config, db: Db, notifs: seq<Notification>, now: Time)
    requires notifs != [] && TwinsAmong(cfg, db, notifs, now)
    ensures var k := |notifs| - 1;
            TwinsAmong(cfg, db, notifs[..k], now) || TwinOf(cfg, db, notifs[..k], notifs[k], now)
  {
    var k := |notifs| - 1;
    var init := notifs[..k];
    var i, j :| 0 <= i < j < |notifs| && TwinCalls(cfg, db, notifs[i], notifs[j], now);
    assert init[i] == notifs[i];
    if j < k {
      assert init[j] == notifs[j];
    } else {
      assert init[i] in init;
    }
  }

  lemma TwinsStay(cfg: Config, db: Db, notifs: seq<Notification>, now: Time)
    requires notifs != [] && TwinsAmong(cfg, db, notifs[..|notifs| - 1], now)
    ensures TwinsAmong(cfg, db, notifs, now)
  {
    var init := notifs[..|notifs| - 1];
    var i, j :| 0 <= i < j < |init| && TwinCalls(cfg, db, init[i], init[j], now);
    assert init[i] == notifs[i] && init[j] == notifs[j];
  }

  lemma TwinJoins(cfg: Config, db: Db, notifs: seq<Notification>, now: Time)
    requires notifs != [] && TwinOf(cfg, db, notifs[..|notifs| - 1], notifs[|notifs| - 1], now)
    ensures TwinsAmong(cfg, db, notifs, now)
  {
    var k := |notifs| - 1;
    var m :| m in notifs[..k] && TwinCalls(cfg, db, m, notifs[k], now);
    var i :| 0 <= i < k && notifs[..k][i] == m;
    assert notifs[i] == m;
  }

  lemma NoTwins(cfg: Config, db: Db, notifs: seq<Notification>, now: Time)
    requires notifs != [] && !TwinsAmong(cfg, db, notifs, now)
    ensures var k := |notifs| - 1;
            !TwinsAmong(cfg, db, notifs[..k], now) && !TwinOf(cfg, db, notifs[..k], notifs[k], now)
  {
    if TwinsAmong(cfg, db, notifs[..|notifs| - 1], now) {
      TwinsStay(cfg, db, notifs, now);
    }
    if TwinOf(cfg, db, notifs[..|notifs| - 1], notifs[|notifs| - 1], now) {
      TwinJoins(cfg, db, notifs, now);
    }
  }

  /** A call for n joins a pending one of the same line exactly when a twin of n was due too. */
  lemma TwinIsSameLine(cfg: Config, db: Db, notifs: seq<Notification>, n: Notification, now: Time)
    requires CallFor(cfg, db, n, now) != []
    ensures TwinOf(cfg, db, notifs, n, now)
            <==> exists c | c in NewCalls(cfg, db, notifs, now) :: SameLine(c, CallFor(cfg, db, n, now)[0])
  {
    var mine := CallFor(cfg, db, n, now)[0];
    NewCallsCover(cfg, db, notifs, now);
    NewCallsJustified(cfg, db, notifs, now);
    if TwinOf(cfg, db, notifs, n, now) {
      var m :| m in notifs && TwinCalls(cfg, db, m, n, now);
      assert SameLine(CallFor(cfg, db, m, now)[0], mine);
    }
    if c :| c in NewCalls(cfg, db, notifs, now) && SameLine(c, mine) {
      var m :| m in notifs && CallFrom(cfg, db, m, c, now);
      assert TwinCalls(cfg, db, m, n, now);
    }
  }

  lemma NoDoubleJoin(x: seq<Call>, last: seq<Call>)
    requires |last| <= 1
    ensures NoDoubleCall(x + last)
            <==> NoDoubleCall(x) && (last == [] || !exists c | c in x :: SameLine(c, last[0]))
  {
    NoDoubleAppend(x, last);
    if last != [] {
      if c :| c in x && SameLine(c, last[0]) {
        var i :| 0 <= i < |x| && x[i] == c;
        assert SameLine(x[i], last[0]);
      }
    }
  }

  lemma {:induction false} NewCallsTwins(cfg: Config, db: Db, notifs: seq<Notification>, now: Time)
    ensures NoDoubleCall(NewCalls(cfg, db, notifs, now)) <==> !TwinsAmong(cfg, db, notifs, now)
  {
    if notifs != [] {
      var k := |notifs| - 1;
      NewCallsTwins(cfg, db, notifs[..k], now);
      if TwinsAmong(cfg, db, notifs, now) {
        TwinsSplit(cfg, db, notifs, now);
      } else {
        NoTwins(cfg, db, notifs, now);
      }
      NoDoubleJoin(NewCalls(cfg, db, notifs[..k], now), CallFor(cfg, db, notifs[k], now));
      if CallFor(cfg, db, notifs[k], now) != [] {
        TwinIsSameLine(cfg, db, notifs[..k], notifs[k], now);
      }
    }
  }

  lemma {:induction false} NewCallsCover(cfg: Config, db: Db, notifs: seq<Notification>, now: Time)
    ensures forall n | n in notifs && CallFor(cfg, db, n, now) != [] ::
              CallFor(cfg, db, n, now)[0] in NewCalls(cfg, db, notifs, now)
  {
    if notifs != [] {
      NewCallsCover(cfg, db, notifs[..|notifs| - 1], now);
    }
  }

  /** The contact section keeps "one pending call per number and alarm" exactly when no two notifications of one
      alarm that are both due share a number: rows added in the same tick are invisible to its guard. */
  lemma EnqueueDoublesOnlyTwins(cfg: Config, db: Db, now: Time)
    requires NoDoubleCall(db.calls)
    ensures NoDoubleCall(EnqueueContacts(cfg, db, now).calls) <==> !Twins(cfg, db, now)
  {
    var added := NewCalls(cfg, db, db.notifs, now);
    NewCallsTwins(cfg, db, db.notifs, now);
    NewCallsJustified(cfg, db, db.notifs, now);
    NoDoubleAppend(db.calls, added);
    forall i, j | 0 <= i < |db.calls| && 0 <= j < |added| ensures !SameLine(db.calls[i], added[j]) {
      assert added[j] in added;
      var n :| n in db.notifs && CallFrom(cfg, db, n, added[j], now);
      assert db.calls[i] in db.calls;
    }
  }

  lemma NoTwinsWithDistinctNumbers(cfg: Config, db: Db, now: Time)
    requires DistinctNumbers(cfg.users) && UniqueNotifs(db.notifs)
    ensures !Twins(cfg, db, now)
  {
    forall i, j | 0 <= i < j < |db.notifs| ensures !TwinCalls(cfg, db, db.notifs[i], db.notifs[j], now) {
      var m, n := db.notifs[i], db.notifs[j];
      assert PhoneOf(cfg.users, m.userId).Some? && PhoneOf(cfg.users, m.userId) == PhoneOf(cfg.users, n.userId)
             ==> m.userId == n.userId;
    }
  }

  /** Two users who share a number are both called for one alarm. */
  lemma SharedNumberIsCalledTwice()
    ensures var cfg := Config([], [User(1, Some("+33")), User(2, Some("+33"))], 15 * MINUTE, 2 * MINUTE, "izeron", {}, 15 * SECOND);
            var db := Db([FreshAlarm("t", Some(1), Api, "izeron", 0)],
                         [NewNotification(0, 1, 0), NewNotification(0, 2, 0)], [], [], map[]);
            !NoDoubleCall(EnqueueContacts(cfg, db, 5 * MINUTE).calls)
  {
    var cfg := Config([], [User(1, Some("+33")), User(2, Some("+33"))], 15 * MINUTE, 2 * MINUTE, "izeron", {}, 15 * SECOND);
    var db := Db([FreshAlarm("t", Some(1), Api, "izeron", 0)],
                 [NewNotification(0, 1, 0), NewNotification(0, 2, 0)], [], [], map[]);
    EnqueueDoublesOnlyTwins(cfg, db, 5 * MINUTE);
    assert cfg.users[1..][0] == User(2, Some("+33"));
    assert TwinCalls(cfg, db, db.notifs[0], db.notifs[1], 5 * MINUTE);
  }

  lemma FewerPending(x: seq<Call>, y: seq<Call>)
    requires NoDoubleCall(x) && |x| == |y|
    requires forall i | 0 <= i < |x| ::
               y[i].toNumber == x[i].toNumber && y[i].alarmId == x[i].alarmId && (CallPending(y[i]) ==> CallPending(x[i]))
    ensures NoDoubleCall(y)
  {
    forall i, j | 0 <= i < j < |y| ensures !SameLine(y[i], y[j]) {
      assert !SameLine(x[i], x[j]);
    }
  }

  /** With distinct numbers no step ever queues a second pending call to a number for an alarm. */
  lemma StepKeepsNoDoubleCall(cfg: Config, db: Db, ev: Event, now: Time)
    requires DistinctNumbers(cfg.users) && UniqueNotifs(db.notifs) && NoDoubleCall(db.calls)
    ensures NoDoubleCall(Step(cfg, db, ev, now).calls)
  {
    if ev.LoopTick? {
      var d1 := ExpireAcks(db, now);
      SameUnique(db.notifs, d1.notifs);
      var d2 := CancelObsolete(cfg, d1);
      FewerPending(d1.calls, d2.calls);
      var d3 := EscalateByTimer(cfg, d2, now);
      NotifyTargetsFlags(d2.notifs, TimerTargets(cfg, d2, now), now);
      EnqueueDoublesOnlyTwins(cfg, d3, now);
      NoTwinsWithDistinctNumbers(cfg, d3, now);
    } else {
      StepKeepsCallRows(cfg, db, ev, now);
      FewerPending(db.calls, Step(cfg, db, ev, now).calls);
    }
  }

  lemma {:induction false} RunKeepsNoDoubleCall(cfg: Config, states: seq<Db>, run: seq<Moment>, k: nat)
    requires IsRun(cfg, states, run) && k <= |run| && DistinctNumbers(cfg.users)
    requires UniqueNotifs(states[0].notifs) && NoDoubleCall(states[0].calls)
    ensures NoDoubleCall(states[k].calls)
  {
    if k > 0 {
      RunKeepsNoDoubleCall(cfg, states, run, k - 1);
      RunKeepsUnique(cfg, states, run, k - 1);
      NoDoubleCallAt(cfg, states, run, k - 1);
    }
  }

  lemma NoDoubleCallAt(cfg: Config, states: seq<Db>, run: seq<Moment>, k: nat)
    requires IsRun(cfg, states, run) && k < |run| && DistinctNumbers(cfg.users)
    requires UniqueNotifs(states[k].notifs) && NoDoubleCall(states[k].calls)
    ensures NoDoubleCall(states[k + 1].calls)
  {
    assert Stepped(cfg, states, run, k);
    StepKeepsNoDoubleCall(cfg, states[k], run[k].event, run[k].now);
  }

  // ----- life of a queued call -----

  /** How many more results a queued call can absorb before it leaves the queue. */
  function TriesLeft(c: Call): nat {
    if CallPending(c) then MAX_RETRIES - c.retries else 0
  }

  ghost predicate SameCall(c: Call, d: Call) {
    d.toNumber == c.toNumber && d.alarmId == c.alarmId && d.userId == c.userId && d.createdAt == c.createdAt
    && d.site == c.site
  }

  /** Step ev posts a result on row c. */
  predicate Posts(ev: Event, c: nat) { ev.CallResultPosted? && ev.callId == c }

  /** What a step may do to the rows of the call queue. */
  ghost predicate CallRowsKept(calls: seq<Call>, calls': seq<Call>) {
    && |calls'| >= |calls|
    && forall c | 0 <= c < |calls| :: SameCall(calls[c], calls'[c]) && TriesLeft(calls'[c]) <= TriesLeft(calls[c])
  }

  lemma TickKeepsCallRows(cfg: Config, db: Db, now: Time)
    ensures CallRowsKept(db.calls, Tick(cfg, db, now).calls)
  {
    var d1 := ExpireAcks(db, now);
    var d2 := CancelObsolete(cfg, d1);
    assert forall c | 0 <= c < |db.calls| :: d2.calls[c] == CancelCall(d1, db.calls[c]);
    var d3 := EscalateByTimer(cfg, d2, now);
    assert Tick(cfg, db, now).calls == d2.calls + NewCalls(cfg, d3, d3.notifs, now);
  }

  lemma ResultKeepsCallRows(cfg: Config, db: Db, c: nat, r: CallResult, now: Time)
    requires c < |db.calls|
    ensures var calls' := PostCallResult(cfg, db, c, r, now).calls;
            && CallRowsKept(db.calls, calls') && |calls'| == |db.calls|
            && (CallPending(db.calls[c]) ==> TriesLeft(calls'[c]) < TriesLeft(db.calls[c]))
  {
    assert PostCallResult(cfg, db, c, r, now).calls == db.calls[c := CallAfter(db.calls[c], r, now)];
  }

  /** No step re-opens a queued call, and a result posted on a pending one uses up a try. */
  lemma StepKeepsCallRows(cfg: Config, db: Db, ev: Event, now: Time)
    ensures var calls, calls' := db.calls, Step(cfg, db, ev, now).calls;
            && CallRowsKept(calls, calls') && (!ev.LoopTick? ==> |calls'| == |calls|)
            && forall c | 0 <= c < |calls| && Posts(ev, c) && CallPending(calls[c]) ::
                 TriesLeft(calls'[c]) < TriesLeft(calls[c])
  {
    match ev
    case LoopTick => TickKeepsCallRows(cfg, db, now);
    case CallResultPosted(c, r) => if c < |db.calls| { ResultKeepsCallRows(cfg, db, c, r, now); }
    case _ => OtherStepsKeepCalls(cfg, db, ev, now);
  }

  lemma OtherStepsKeepCalls(cfg: Config, db: Db, ev: Event, now: Time)
    requires !ev.LoopTick? && !ev.CallResultPosted?
    ensures Step(cfg, db, ev, now).calls == db.calls
  {
  }

  /** Results posted on row c while it was pending, among the steps i..k-1. */
  ghost function ResultsTaken(states: seq<Db>, run: seq<Moment>, c: nat, i: nat, k: nat): nat
    requires i <= k <= |run| <= |states|
  {
    if k == i then 0
    else
      ResultsTaken(states, run, c, i, k - 1)
      + if Posts(run[k - 1].event, c) && c < |states[k - 1].calls| && CallPending(states[k - 1].calls[c]) then 1 else 0
  }

  lemma CallRowAt(cfg: Config, states: seq<Db>, run: seq<Moment>, c: nat, k: nat)
    requires IsRun(cfg, states, run) && k < |run| && c < |states[k].calls|
    ensures c < |states[k + 1].calls|
    ensures var x, y := states[k].calls[c], states[k + 1].calls[c];
            && SameCall(x, y) && TriesLeft(y) <= TriesLeft(x)
            && (Posts(run[k].event, c) && CallPending(x) ==> TriesLeft(y) < TriesLeft(x))
  {
    assert Stepped(cfg, states, run, k);
    StepKeepsCallRows(cfg, states[k], run[k].event, run[k].now);
  }

  /** Over a run a queued call takes at most three results while pending, never comes back once it has left the
      queue, and never changes number, alarm or user. */
  lemma {:induction false} CallLifecycle(cfg: Config, states: seq<Db>, run: seq<Moment>, c: nat, i: nat, k: nat)
    requires IsRun(cfg, states, run) && i <= k <= |run| && c < |states[i].calls|
    ensures c < |states[k].calls| && SameCall(states[i].calls[c], states[k].calls[c])
    ensures ResultsTaken(states, run, c, i, k) + TriesLeft(states[k].calls[c]) <= TriesLeft(states[i].calls[c])
    ensures ResultsTaken(states, run, c, i, k) <= MAX_RETRIES
    ensures !CallPending(states[i].calls[c]) ==> !CallPending(states[k].calls[c])
  {
    if i < k {
      CallLifecycle(cfg, states, run, c, i, k - 1);
      CallRowAt(cfg, states, run, c, k - 1);
    }
  }

  // ----- silence after an acknowledgement or a resolution -----

  /** After a tick every pending call belongs to a live alarm. */
  lemma TickClearsObsoleteCalls(cfg: Config, db: Db, now: Time, c: nat)
    requires c < |Tick(cfg, db, now).calls| && CallPending(Tick(cfg, db, now).calls[c])
    requires Tick(cfg, db, now).calls[c].alarmId < |db.alarms|
    ensures var db' := Tick(cfg, db, now);
            db'.calls[c].alarmId < |db'.alarms| && Live(db'.alarms[db'.calls[c].alarmId])
  {
    var db' := Tick(cfg, db, now);
    TickEvolves(cfg, db, now, db'.calls[c].alarmId);
    if c < |db.calls| {
      var mid := BeforeEscalation(cfg, db, now);
      assert mid.calls[c] == CancelCall(ExpireAcks(db, now), ExpireAcks(db, now).calls[c]);
    } else {
      CallsAreDue(cfg, db, now, c);
    }
  }

  /** An acknowledgement silences the alarm for 30 minutes: no tick up to that instant touches it, and the first
      tick after it starts a new cycle, with the timer and every notification restarted. */
  lemma AckSilencesThirtyMinutes(cfg: Config, db: Db, a: nat, u: int, t: Time, now: Time)
    requires a < |db.alarms| && Notified(db.notifs, a, u)
    ensures var acked := Step(cfg, db, Ack(a, u), t);
            var after := Tick(cfg, acked, now);
            && acked.alarms[a].status == Acknowledged && acked.alarms[a].acknowledgedBy == Some(u)
            && |after.alarms| == |acked.alarms| && |after.notifs| >= |acked.notifs|
            && (now <= t + 30 * MINUTE ==> after.alarms[a] == acked.alarms[a])
            && (now > t + 30 * MINUTE ==>
                  && Live(after.alarms[a]) && after.alarms[a].createdAt == now
                  && (cfg.escalationDelay > 0 ==> after.alarms[a].assignee == db.alarms[a].assignee)
                  && forall i | 0 <= i < |acked.notifs| && acked.notifs[i].alarmId == a ::
                       && after.notifs[i].notifiedAt == Some(now)
                       && (cfg.contactDelay > 0 ==> !after.notifs[i].smsSent && !after.notifs[i].callSent))
  {
    var acked := Step(cfg, db, Ack(a, u), t);
    TickEvolves(cfg, acked, now, a);
    BeforeEscalationStays(cfg, acked, now, a);
    TickOnNotifs(cfg, acked, now, a);
  }

  /** What a tick does to the notifications of one alarm. */
  lemma TickOnNotifs(cfg: Config, db: Db, now: Time, a: nat)
    requires a < |db.alarms|
    ensures var after := Tick(cfg, db, now);
            && |after.notifs| >= |db.notifs|
            && forall i | 0 <= i < |db.notifs| && db.notifs[i].alarmId == a && AckExpired(db.alarms[a], now) ::
                 && after.notifs[i].notifiedAt == Some(now)
                 && (cfg.contactDelay > 0 ==> !after.notifs[i].smsSent && !after.notifs[i].callSent)
  {
    var mid := BeforeEscalation(cfg, db, now);
    assert forall i | 0 <= i < |db.notifs| :: mid.notifs[i] == Rearm(db.alarms, db.notifs[i], now);
    NotifyTargetsExtends(mid.notifs, TimerTargets(cfg, mid, now), now);
    var d3 := EscalateByTimer(cfg, mid, now);
    assert forall i | 0 <= i < |mid.notifs| :: d3.notifs[i] == mid.notifs[i];
  }

  /** Before delay + 3 minutes the timer only escalates from a user with a number once his call for this level has
      been placed or given up; every SMS still queued to his number is one the same tick cancels. */
  lemma EscalationWaitsForContact(cfg: Config, db: Db, now: Time, a: nat, phone: string)
    requires a < |db.alarms| && Live(db.alarms[a])
    requires db.alarms[a].assignee.Some? && db.alarms[a].assignee.value != 0
    requires PhoneOf(cfg.users, db.alarms[a].assignee.value) == Some(phone)
    requires Tick(cfg, db, now).alarms[a].escalationCount > db.alarms[a].escalationCount
    requires now - db.alarms[a].createdAt < Patience(cfg)
    ensures CallDone(db.calls, a, db.alarms[a].assignee.value, db.alarms[a].createdAt)
    ensures forall s | s in db.sms && s.toNumber == phone && SmsPending(s) :: SmsObsolete(cfg, ExpireAcks(db, now), s)
  {
    var d1, mid := ExpireAcks(db, now), BeforeEscalation(cfg, db, now);
    TickEvolves(cfg, db, now, a);
    BeforeEscalationStays(cfg, db, now, a);
    assert mid.alarms[a] == db.alarms[a];
    assert !AwaitsCall(cfg, mid, a);
    var c :| c in mid.calls && c.alarmId == a && c.userId == db.alarms[a].assignee.value
             && c.createdAt >= db.alarms[a].createdAt && (c.calledAt.Some? || c.retries >= MAX_RETRIES);
    var i :| 0 <= i < |mid.calls| && mid.calls[i] == c;
    assert c == CancelCall(d1, db.calls[i]) == db.calls[i];
    assert db.calls[i] in db.calls;
    forall s | s in db.sms && s.toNumber == phone && SmsPending(s) ensures SmsObsolete(cfg, d1, s) {
      var j :| 0 <= j < |db.sms| && db.sms[j] == s;
      assert mid.sms[j] == CancelSms(cfg, d1, s);
      assert mid.sms[j] in mid.sms;
    }
  }
}
