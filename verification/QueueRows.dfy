/** The rows of the two contact queues: exactly what each step does to one, and what becomes of an SMS over a run. */
module QueueRows {
  import opened Basics
  import opened EscalationChain
  import opened AlarmTables
  import opened AlarmSteps
  import opened EscalationRuns
  import opened ContactRuns
  import opened ContactDelivery

  // ----- the alarm an SMS belongs to -----

  /** The notification is of a user with the number, and no later than the SMS. */
  ghost predicate Concerns(users: seq<User>, n: Notification, s: Sms) {
    && n.notifiedAt.Some? && n.notifiedAt.value <= s.createdAt
    && exists u :: IsUser(users, n.userId, u) && u.phone == Some(s.toNumber)
  }

  /** Notification i is the latest of those, the first of equals. */
  ghost predicate IsNoticeOf(users: seq<User>, notifs: seq<Notification>, s: Sms, i: nat) {
    && i < |notifs| && Concerns(users, notifs[i], s)
    && forall j | 0 <= j < |notifs| && Concerns(users, notifs[j], s) ::
         notifs[j].notifiedAt.value <= notifs[i].notifiedAt.value
         && (notifs[j].notifiedAt == notifs[i].notifiedAt ==> i <= j)
  }

  lemma ConcernsIs(users: seq<User>, n: Notification, s: Sms)
    ensures Concerns(users, n, s) <==>
              var u := FindUser(users, n.userId);
              u.Some? && u.value.phone == Some(s.toNumber) && n.notifiedAt.Some? && n.notifiedAt.value <= s.createdAt
  {
    forall u ensures IsUser(users, n.userId, u) <==> FindUser(users, n.userId) == Some(u) {
      UserIs(users, n.userId, u);
    }
    if FindUser(users, n.userId).Some? {
      assert IsUser(users, n.userId, FindUser(users, n.userId).value);
    }
  }

  ghost predicate NoNoticeOf(users: seq<User>, notifs: seq<Notification>, s: Sms) {
    forall j | 0 <= j < |notifs| :: !Concerns(users, notifs[j], s)
  }

  lemma NoticeStays(users: seq<User>, notifs: seq<Notification>, last: Notification, s: Sms, i: nat)
    requires IsNoticeOf(users, notifs, s, i)
    requires Concerns(users, last, s) ==> last.notifiedAt.value <= notifs[i].notifiedAt.value
    ensures IsNoticeOf(users, notifs + [last], s, i)
  {
  }

  lemma NoticeMoves(users: seq<User>, notifs: seq<Notification>, last: Notification, s: Sms)
    requires Concerns(users, last, s)
    requires forall j | 0 <= j < |notifs| && Concerns(users, notifs[j], s) ::
               notifs[j].notifiedAt.value < last.notifiedAt.value
    ensures IsNoticeOf(users, notifs + [last], s, |notifs|)
  {
  }

  lemma NoNoticeOn(users: seq<User>, notifs: seq<Notification>, last: Notification, s: Sms)
    requires NoNoticeOf(users, notifs, s) && !Concerns(users, last, s)
    ensures NoNoticeOf(users, notifs + [last], s)
  {
  }

  lemma {:induction false} LatestIsNotice(users: seq<User>, notifs: seq<Notification>, s: Sms) returns (i: nat)
    ensures var n := LatestNotice(users, notifs, s.toNumber, s.createdAt);
            if n.Some? then IsNoticeOf(users, notifs, s, i) && notifs[i] == n.value else NoNoticeOf(users, notifs, s)
  {
    i := 0;
    if notifs != [] {
      var init, last := notifs[..|notifs| - 1], notifs[|notifs| - 1];
      assert notifs == init + [last];
      i := LatestIsNotice(users, init, s);
      var best := LatestNotice(users, init, s.toNumber, s.createdAt);
      ConcernsIs(users, last, s);
      if Concerns(users, last, s) && (best.None? || best.value.notifiedAt.value < last.notifiedAt.value) {
        NoticeMoves(users, init, last, s);
        i := |init|;
      } else if best.Some? {
        NoticeStays(users, init, last, s, i);
      } else {
        NoNoticeOn(users, init, last, s);
      }
    }
  }

  /** There is one such notification at most. */
  lemma OneNotice(users: seq<User>, notifs: seq<Notification>, s: Sms, i: nat, j: nat)
    requires IsNoticeOf(users, notifs, s, i) && IsNoticeOf(users, notifs, s, j)
    ensures i == j
  {
  }

  /** The SMS belongs to an alarm that is no longer to be answered. */
  ghost predicate Superseded(cfg: Config, alarms: seq<Alarm>, notifs: seq<Notification>, s: Sms) {
    exists i: nat :: IsNoticeOf(cfg.users, notifs, s, i) && notifs[i].alarmId < |alarms| && !Unanswered(alarms[notifs[i].alarmId])
  }

  lemma SupersededIsObsolete(cfg: Config, db: Db, s: Sms)
    ensures Superseded(cfg, db.alarms, db.notifs, s) <==> SmsObsolete(cfg, db, s)
  {
    var i := LatestIsNotice(cfg.users, db.notifs, s);
    forall j: nat | IsNoticeOf(cfg.users, db.notifs, s, j) ensures IsNoticeOf(cfg.users, db.notifs, s, i) && j == i {
      assert Concerns(cfg.users, db.notifs[j], s);
      OneNotice(cfg.users, db.notifs, s, i, j);
    }
  }

  // ----- what a tick does to a row -----

  lemma UnansweredAfterExpiry(cfg: Config, db: Db, now: Time, a: nat)
    requires a < |db.alarms|
    ensures a < |Tick(cfg, db, now).alarms|
    ensures Unanswered(Tick(cfg, db, now).alarms[a]) <==> Live(ExpireAcks(db, now).alarms[a])
  {
    TickEvolves(cfg, db, now, a);
    BeforeEscalationStays(cfg, db, now, a);
  }

  /** A tick cancels exactly the calls in the queue whose alarm is no longer to be answered, and touches no other. */
  lemma TickCancelsCallsExactly(cfg: Config, db: Db, now: Time, c: nat)
    requires c < |db.calls|
    ensures var x, db' := db.calls[c], Step(cfg, db, LoopTick, now);
            && |db'.alarms| == |db.alarms| && c < |db'.calls|
            && db'.calls[c] == if CallWaits(x) && x.alarmId < |db.alarms| && !Unanswered(db'.alarms[x.alarmId])
                               then x.(retries := 3, result := Some(Cancelled)) else x
  {
    var d1 := ExpireAcks(db, now);
    assert Tick(cfg, db, now).calls[c] == CancelCall(d1, db.calls[c]);
    if db.calls[c].alarmId < |db.alarms| {
      UnansweredAfterExpiry(cfg, db, now, db.calls[c].alarmId);
    }
    TickIsContactsOnMid(cfg, db, now);
  }

  /** The notifications the tick started from, with their dates and alarms as it leaves them. */
  ghost function OldNotifs(db: Db, db': Db): seq<Notification>
    requires |db.notifs| <= |db'.notifs|
  {
    db'.notifs[..|db.notifs|]
  }

  ghost predicate SameButMarks(x: seq<Notification>, y: seq<Notification>) {
    |x| == |y| && forall i | 0 <= i < |x| :: SameUser(x[i], y[i]) && x[i].notifiedAt == y[i].notifiedAt
  }

  lemma SameNotices(users: seq<User>, x: seq<Notification>, y: seq<Notification>, s: Sms, i: nat)
    requires SameButMarks(x, y) && IsNoticeOf(users, x, s, i)
    ensures IsNoticeOf(users, y, s, i)
  {
    assert forall j | 0 <= j < |x| :: Concerns(users, x[j], s) <==> Concerns(users, y[j], s);
  }

  lemma SupersededAfterTick(cfg: Config, db: Db, now: Time, s: Sms)
    ensures |db.notifs| <= |Tick(cfg, db, now).notifs|
    ensures var d1, db' := ExpireAcks(db, now), Tick(cfg, db, now);
            Superseded(cfg, d1.alarms, d1.notifs, s) <==> Superseded(cfg, db'.alarms, OldNotifs(db, db'), s)
  {
    var d1, db' := ExpireAcks(db, now), Tick(cfg, db, now);
    TickIsContactsOnMid(cfg, db, now);
    var mid := Mid(cfg, db, now);
    var olds := OldNotifs(db, db');
    forall i | 0 <= i < |db.notifs| ensures SameUser(olds[i], d1.notifs[i]) && olds[i].notifiedAt == d1.notifs[i].notifiedAt {
      assert db'.notifs[i] == MarkContacted(cfg, mid.alarms, mid.notifs[i], now);
    }
    forall a: nat | a < |db.alarms| ensures Unanswered(db'.alarms[a]) <==> Unanswered(d1.alarms[a]) {
      UnansweredAfterExpiry(cfg, db, now, a);
    }
    SupersededTransfers(cfg, d1.alarms, db'.alarms, d1.notifs, olds, s);
    SupersededTransfers(cfg, db'.alarms, d1.alarms, olds, d1.notifs, s);
  }

  lemma SupersededTransfers(cfg: Config, x: seq<Alarm>, y: seq<Alarm>, m: seq<Notification>, n: seq<Notification>, s: Sms)
    requires |x| == |y| && SameButMarks(m, n)
    requires forall a: nat | a < |x| :: Unanswered(x[a]) <==> Unanswered(y[a])
    ensures Superseded(cfg, x, m, s) ==> Superseded(cfg, y, n, s)
  {
    if Superseded(cfg, x, m, s) {
      var i: nat :| IsNoticeOf(cfg.users, m, s, i) && m[i].alarmId < |x| && !Unanswered(x[m[i].alarmId]);
      SameNotices(cfg.users, m, n, s, i);
    }
  }

  /** A tick cancels exactly the SMS in the queue that belong to an alarm no longer to be answered: the alarm of the
      latest notification, up to the SMS, of a user with its number. */
  lemma TickCancelsSmsExactly(cfg: Config, db: Db, now: Time, j: nat)
    requires j < |db.sms|
    ensures var x, db' := db.sms[j], Step(cfg, db, LoopTick, now);
            && |db.notifs| <= |db'.notifs| && j < |db'.sms|
            && db'.sms[j] == if SmsWaits(x) && Superseded(cfg, db'.alarms, OldNotifs(db, db'), x)
                             then x.(retries := 3, error := CANCELLED_SMS_ERROR) else x
  {
    var d1 := ExpireAcks(db, now);
    assert Tick(cfg, db, now).sms[j] == CancelSms(cfg, d1, db.sms[j]);
    SupersededIsObsolete(cfg, d1, db.sms[j]);
    SupersededAfterTick(cfg, db, now, db.sms[j]);
  }

  // ----- what the gateway's answers do to a row -----

  /** A result closes its call, except an error, which leaves the call waiting; only an answer costs no try; no other
      step but a tick touches a call. */
  lemma CallRowExactly(cfg: Config, db: Db, ev: Event, now: Time, c: nat)
    requires !ev.LoopTick? && c < |db.calls|
    ensures var x, calls' := db.calls[c], Step(cfg, db, ev, now).calls;
            && |calls'| == |db.calls|
            && calls'[c] == if !Posts(ev, c) then x
                            else x.(result := Some(ev.result),
                                    calledAt := if ev.result == CallError then x.calledAt else Some(now),
                                    retries := if ev.result in {AckDtmf, AckSms, EscalateKey} then x.retries
                                               else x.retries + 1)
  {
    if ev.CallResultPosted? {
      if ev.callId < |db.calls| {
        assert Step(cfg, db, ev, now).calls == db.calls[ev.callId := CallAfter(db.calls[ev.callId], ev.result, now)];
      }
    } else {
      OtherStepsKeepCalls(cfg, db, ev, now);
    }
  }

  /** Sending stamps the SMS, a failure costs a try and leaves its message; nothing else but a tick touches an SMS. */
  lemma SmsRowExactly(cfg: Config, db: Db, ev: Event, now: Time, j: nat)
    requires !ev.LoopTick? && j < |db.sms|
    ensures var x, sms' := db.sms[j], Step(cfg, db, ev, now).sms;
            && |sms'| == |db.sms|
            && sms'[j] == if ev == SmsSent(j) then x.(sentAt := Some(now))
                          else if ev.SmsFailed? && ev.smsId == j then x.(retries := x.retries + 1, error := ev.error)
                          else x
  {
  }

  // ----- life of an SMS -----

  function SmsTriesLeft(s: Sms): nat { if SmsWaits(s) then 3 - s.retries else 0 }

  ghost predicate SameSms(x: Sms, y: Sms) {
    y.toNumber == x.toNumber && y.body == x.body && y.createdAt == x.createdAt && y.site == x.site
  }

  predicate Fails(ev: Event, j: nat) { ev.SmsFailed? && ev.smsId == j }

  /** Failures reported on row j while it was waiting, among the steps i..k-1. */
  ghost function FailuresTaken(states: seq<Db>, run: seq<Moment>, j: nat, i: nat, k: nat): nat
    requires i <= k <= |run| <= |states|
  {
    if k == i then 0
    else
      FailuresTaken(states, run, j, i, k - 1)
      + if Fails(run[k - 1].event, j) && j < |states[k - 1].sms| && SmsWaits(states[k - 1].sms[j]) then 1 else 0
  }

  lemma SmsRowAt(cfg: Config, states: seq<Db>, run: seq<Moment>, j: nat, k: nat)
    requires IsRun(cfg, states, run) && k < |run| && j < |states[k].sms|
    ensures j < |states[k + 1].sms|
    ensures var x, y := states[k].sms[j], states[k + 1].sms[j];
            && SameSms(x, y) && SmsTriesLeft(y) <= SmsTriesLeft(x)
            && (Fails(run[k].event, j) && SmsWaits(x) ==> SmsTriesLeft(y) == SmsTriesLeft(x) - 1)
            && (run[k].event == SmsSent(j) ==> !SmsWaits(y))
            && (x.sentAt.Some? ==> y.sentAt.Some?)
  {
    assert Stepped(cfg, states, run, k);
    if run[k].event.LoopTick? {
      TickCancelsSmsExactly(cfg, states[k], run[k].now, j);
    } else {
      SmsRowExactly(cfg, states[k], run[k].event, run[k].now, j);
    }
  }

  /** Over a run an SMS fails at most three times while it waits, never comes back once it has left the queue or been
      sent, and never changes number or text. */
  lemma {:induction false} SmsLifecycle(cfg: Config, states: seq<Db>, run: seq<Moment>, j: nat, i: nat, k: nat)
    requires IsRun(cfg, states, run) && i <= k <= |run| && j < |states[i].sms|
    ensures j < |states[k].sms| && SameSms(states[i].sms[j], states[k].sms[j])
    ensures FailuresTaken(states, run, j, i, k) + SmsTriesLeft(states[k].sms[j]) <= SmsTriesLeft(states[i].sms[j])
    ensures FailuresTaken(states, run, j, i, k) <= 3
    ensures !SmsWaits(states[i].sms[j]) ==> !SmsWaits(states[k].sms[j])
    ensures (exists m | i <= m < k :: run[m].event == SmsSent(j)) ==> !SmsWaits(states[k].sms[j])
  {
    if i < k {
      SmsLifecycle(cfg, states, run, j, i, k - 1);
      SmsRowAt(cfg, states, run, j, k - 1);
    }
  }
}
