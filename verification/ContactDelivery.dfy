/** Contacts that are due do go out: what a tick queues, what it cancels, and who is contacted by when. */
module ContactDelivery {
  import opened Basics
  import opened EscalationChain
  import opened AlarmTables
  import opened AlarmSteps
  import opened EscalationRuns
  import opened ContactRuns

  // ----- the rows, in words -----

  /** Still waiting for an answer. */
  predicate Unanswered(a: Alarm) { a.status == Active || a.status == Escalated }

  ghost predicate UnansweredIn(alarms: seq<Alarm>, a: nat) { a < |alarms| && Unanswered(alarms[a]) }

  /** The first user with the id. */
  ghost predicate IsUser(users: seq<User>, id: int, u: User) {
    exists i | 0 <= i < |users| :: users[i] == u && u.id == id && forall j | 0 <= j < i :: users[j].id != id
  }

  ghost predicate Exists(users: seq<User>, id: int) { exists u :: IsUser(users, id, u) }

  ghost predicate HasNumber(users: seq<User>, id: int, number: string) {
    number != "" && exists u :: IsUser(users, id, u) && u.phone == Some(number)
  }

  /** In the gateway's queue: neither placed nor given up after three tries. */
  predicate CallWaits(c: Call) { c.calledAt == None && c.retries < 3 }

  predicate SmsWaits(s: Sms) { s.sentAt == None && s.retries < 3 }

  ghost predicate CallIsQueued(calls: seq<Call>, number: string, a: nat) {
    exists c | c in calls :: c.toNumber == number && c.alarmId == a && CallWaits(c)
  }

  /** The text of an SMS names the alarm's site and its title. */
  ghost predicate SmsIsQueued(sms: seq<Sms>, number: string, a: Alarm) {
    exists s | s in sms :: s.toNumber == number && s.body == SmsBody(a.site, a.title) && SmsWaits(s)
  }

  lemma {:induction false} UserFound(users: seq<User>, id: int)
    ensures match FindUser(users, id)
            case Some(u) => IsUser(users, id, u)
            case None => forall u | u in users :: u.id != id
  {
    if users != [] && users[0].id != id {
      var rest := users[1..];
      UserFound(rest, id);
      var u := FindUser(rest, id);
      if u.Some? {
        var i :| 0 <= i < |rest| && rest[i] == u.value && u.value.id == id && forall j | 0 <= j < i :: rest[j].id != id;
        assert users[i + 1] == u.value;
        forall j | 0 <= j < i + 1 ensures users[j].id != id {
          assert j > 0 ==> users[j] == rest[j - 1];
        }
      }
    } else if users != [] {
      assert users[0] == FindUser(users, id).value;
    }
  }

  lemma UserIs(users: seq<User>, id: int, u: User)
    ensures IsUser(users, id, u) <==> FindUser(users, id) == Some(u)
  {
    UserFound(users, id);
    if IsUser(users, id, u) {
      var i :| 0 <= i < |users| && users[i] == u && u.id == id && forall j | 0 <= j < i :: users[j].id != id;
      assert users[i] in users;
      var f := FindUser(users, id).value;
      var k :| 0 <= k < |users| && users[k] == f && f.id == id && forall j | 0 <= j < k :: users[j].id != id;
      assert !(i < k) && !(k < i);
    }
  }

  lemma NumberIs(users: seq<User>, id: int)
    ensures Exists(users, id) <==> FindUser(users, id).Some?
    ensures forall number :: HasNumber(users, id, number) <==> PhoneOf(users, id) == Some(number)
  {
    UserFound(users, id);
    forall u ensures IsUser(users, id, u) <==> FindUser(users, id) == Some(u) { UserIs(users, id, u); }
    if FindUser(users, id).Some? {
      assert IsUser(users, id, FindUser(users, id).value);
    }
  }

  // ----- one tick, one notification -----

  /** The acknowledgement of the notification's alarm ended at this tick: its contacts start again. */
  ghost predicate Woken(db: Db, db': Db, a: nat) {
    a < |db.alarms| && db.alarms[a].status == Acknowledged && UnansweredIn(db'.alarms, a)
  }

  /** Notification i as the contact section of the tick finds it: new, woken up, or as it was. */
  ghost predicate SmsUnmarked(db: Db, db': Db, i: nat)
    requires i < |db'.notifs|
  {
    i >= |db.notifs| || Woken(db, db', db'.notifs[i].alarmId) || !db.notifs[i].smsSent
  }

  ghost predicate CallUnmarked(db: Db, db': Db, i: nat)
    requires i < |db'.notifs|
  {
    i >= |db.notifs| || Woken(db, db', db'.notifs[i].alarmId) || !db.notifs[i].callSent
  }

  /** The tables as the contact section finds them. */
  function Mid(cfg: Config, db: Db, now: Time): Db { EscalateByTimer(cfg, BeforeEscalation(cfg, db, now), now) }

  lemma TickIsContactsOnMid(cfg: Config, db: Db, now: Time)
    ensures var mid, db' := Mid(cfg, db, now), Tick(cfg, db, now);
            && db'.alarms == mid.alarms && |db'.alarms| == |db.alarms|
            && |db'.notifs| == |mid.notifs| >= |db.notifs|
            && (forall i | 0 <= i < |mid.notifs| :: db'.notifs[i] == MarkContacted(cfg, mid.alarms, mid.notifs[i], now))
            && (forall i | 0 <= i < |db.notifs| :: mid.notifs[i] == Rearm(db.alarms, db.notifs[i], now))
            && (forall i | |db.notifs| <= i < |mid.notifs| ::
                  mid.notifs[i] == NewNotification(mid.notifs[i].alarmId, mid.notifs[i].userId, now))
            && db'.sms == mid.sms + NewSms(cfg, mid, mid.notifs, now)
            && db'.calls == mid.calls + NewCalls(cfg, mid, mid.notifs, now)
  {
    var before := BeforeEscalation(cfg, db, now);
    NotifyTargetsExtends(before.notifs, TimerTargets(cfg, before, now), now);
  }

  /** An alarm wakes up exactly when its acknowledgement has expired. */
  lemma WokenExactly(cfg: Config, db: Db, now: Time, a: nat)
    requires a < |db.alarms|
    ensures Woken(db, Tick(cfg, db, now), a) <==> AckExpired(db.alarms[a], now)
    ensures |Tick(cfg, db, now).alarms| == |db.alarms|
  {
    TickEvolves(cfg, db, now, a);
    BeforeEscalationStays(cfg, db, now, a);
  }

  /** Old enough: notified at least the contact delay ago. */
  ghost predicate Ripe(cfg: Config, n: Notification, now: Time) {
    n.notifiedAt.Some? && now - n.notifiedAt.value >= cfg.contactDelay
  }

  lemma {:induction false} NewSmsCover(cfg: Config, db: Db, notifs: seq<Notification>, now: Time)
    ensures forall n | n in notifs && SmsFor(cfg, db, n, now) != [] ::
              SmsFor(cfg, db, n, now)[0] in NewSms(cfg, db, notifs, now)
  {
    if notifs != [] {
      NewSmsCover(cfg, db, notifs[..|notifs| - 1], now);
    }
  }

  lemma CallGoesOut(cfg: Config, mid: Db, n: Notification, now: Time, number: string)
    requires n in mid.notifs && UnansweredIn(mid.alarms, n.alarmId) && Ripe(cfg, n, now) && !n.callSent
    requires HasNumber(cfg.users, n.userId, number)
    ensures CallIsQueued(mid.calls + NewCalls(cfg, mid, mid.notifs, now), number, n.alarmId)
  {
    NumberIs(cfg.users, n.userId);
    var after := mid.calls + NewCalls(cfg, mid, mid.notifs, now);
    if CallQueued(mid.calls, number, n.alarmId) {
      var c :| c in mid.calls && c.toNumber == number && c.alarmId == n.alarmId && CallPending(c);
      assert c in after;
    } else {
      NewCallsCover(cfg, mid, mid.notifs, now);
      assert CallFor(cfg, mid, n, now)[0] in after;
    }
  }

  lemma SmsGoesOut(cfg: Config, mid: Db, n: Notification, now: Time, number: string)
    requires n in mid.notifs && UnansweredIn(mid.alarms, n.alarmId) && Ripe(cfg, n, now) && !n.smsSent
    requires HasNumber(cfg.users, n.userId, number)
    ensures SmsIsQueued(mid.sms + NewSms(cfg, mid, mid.notifs, now), number, mid.alarms[n.alarmId])
  {
    NumberIs(cfg.users, n.userId);
    var after := mid.sms + NewSms(cfg, mid, mid.notifs, now);
    var body := BodyOf(mid.alarms[n.alarmId]);
    if s :| s in mid.sms && s.toNumber == number && s.body == body && SmsPending(s) {
      assert s in after;
    } else {
      NewSmsCover(cfg, mid, mid.notifs, now);
      assert SmsFor(cfg, mid, n, now)[0] in after;
    }
  }

  /** A due contact goes out: after a tick, an unanswered alarm's notification at least the contact delay old carries
      both marks if its user exists; and whichever mark was off when the section started, the contact is in the queue if
      the user has a number. */
  lemma DueContactGoesOut(cfg: Config, db: Db, now: Time, i: nat)
    requires i < |Step(cfg, db, LoopTick, now).notifs|
    requires var db' := Step(cfg, db, LoopTick, now);
             UnansweredIn(db'.alarms, db'.notifs[i].alarmId) && Ripe(cfg, db'.notifs[i], now)
    ensures var db' := Step(cfg, db, LoopTick, now);
            var n := db'.notifs[i];
            && (Exists(cfg.users, n.userId) ==> n.smsSent && n.callSent)
            && (forall number | HasNumber(cfg.users, n.userId, number) ::
                  && (CallUnmarked(db, db', i) ==> CallIsQueued(db'.calls, number, n.alarmId))
                  && (SmsUnmarked(db, db', i) ==> SmsIsQueued(db'.sms, number, db'.alarms[n.alarmId])))
  {
    var mid, db' := Mid(cfg, db, now), Tick(cfg, db, now);
    TickIsContactsOnMid(cfg, db, now);
    var n := mid.notifs[i];
    assert n in mid.notifs;
    NumberIs(cfg.users, n.userId);
    assert CallUnmarked(db, db', i) ==> !n.callSent by { MarksAtStart(cfg, db, now, i); }
    assert SmsUnmarked(db, db', i) ==> !n.smsSent by { MarksAtStart(cfg, db, now, i); }
    forall number | HasNumber(cfg.users, n.userId, number)
      ensures CallUnmarked(db, db', i) ==> CallIsQueued(db'.calls, number, n.alarmId)
      ensures SmsUnmarked(db, db', i) ==> SmsIsQueued(db'.sms, number, db'.alarms[n.alarmId])
    {
      if !n.callSent {
        CallGoesOut(cfg, mid, n, now, number);
      }
      if !n.smsSent {
        SmsGoesOut(cfg, mid, n, now, number);
      }
    }
  }

  /** The marks the contact section finds. */
  lemma MarksAtStart(cfg: Config, db: Db, now: Time, i: nat)
    requires i < |Mid(cfg, db, now).notifs| && |Tick(cfg, db, now).notifs| == |Mid(cfg, db, now).notifs|
    ensures var mid, db' := Mid(cfg, db, now), Tick(cfg, db, now);
            && (SmsUnmarked(db, db', i) <==> !mid.notifs[i].smsSent)
            && (CallUnmarked(db, db', i) <==> !mid.notifs[i].callSent)
            && mid.notifs[i].alarmId == db'.notifs[i].alarmId
            && (Woken(db, db', mid.notifs[i].alarmId) || i >= |db.notifs| ==> mid.notifs[i].notifiedAt == Some(now))
            && (i < |db.notifs| && !Woken(db, db', mid.notifs[i].alarmId) ==> mid.notifs[i] == db.notifs[i])
            && (i < |db.notifs| ==> SameUser(db.notifs[i], mid.notifs[i]))
  {
    TickIsContactsOnMid(cfg, db, now);
    if i < |db.notifs| && db.notifs[i].alarmId < |db.alarms| {
      WokenExactly(cfg, db, now, db.notifs[i].alarmId);
    }
  }

  ghost predicate SameUser(m: Notification, n: Notification) { m.alarmId == n.alarmId && m.userId == n.userId }

  /** Before that nothing goes out: until its notification is old enough, or when its user does not exist, both marks
      are as the contact section found them, and the notification's date stands unless the alarm has just woken up. */
  lemma EarlyContactWaits(cfg: Config, db: Db, now: Time, i: nat)
    requires i < |Step(cfg, db, LoopTick, now).notifs|
    ensures var db' := Step(cfg, db, LoopTick, now);
            var n := db'.notifs[i];
            && (n.notifiedAt == if i < |db.notifs| && !Woken(db, db', n.alarmId) then db.notifs[i].notifiedAt else Some(now))
            && (i < |db.notifs| ==> SameUser(db.notifs[i], n))
            && (!UnansweredIn(db'.alarms, n.alarmId) || !Ripe(cfg, n, now) || !Exists(cfg.users, n.userId) ==>
                  && (n.smsSent <==> !SmsUnmarked(db, db', i))
                  && (n.callSent <==> !CallUnmarked(db, db', i)))
  {
    TickIsContactsOnMid(cfg, db, now);
    MarksAtStart(cfg, db, now, i);
    NumberIs(cfg.users, Mid(cfg, db, now).notifs[i].userId);
  }

  // ----- a run -----

  lemma AddNotifiedExtends(notifs: seq<Notification>, a: nat, u: int, now: Time)
    ensures notifs <= AddNotified(notifs, a, u, now)
  {
  }

  /** Only a tick touches a notification. */
  lemma OnlyTicksMark(cfg: Config, db: Db, ev: Event, now: Time, i: nat)
    requires !ev.LoopTick? && i < |db.notifs|
    ensures var notifs' := Step(cfg, db, ev, now).notifs; i < |notifs'| && notifs'[i] == db.notifs[i]
  {
    match ev
    case AdminEscalate => NotifyTargetsExtends(db.notifs, AdminTargets(cfg, db), now);
    case CallResultPosted(c, r) =>
      if c < |db.calls| {
        var db1 := db.(calls := db.calls[c := CallAfter(db.calls[c], r, now)]);
        NotifyTargetsExtends(db.notifs, KeyTargets(cfg, db1, db.calls[c].alarmId), now);
      }
    case _ =>
  }

  /** Over the states b to k the alarm is unanswered. */
  ghost predicate UnansweredThrough(states: seq<Db>, a: nat, b: nat, k: nat) {
    forall j | b <= j <= k && j < |states| :: UnansweredIn(states[j].alarms, a)
  }

  /** Step m is a tick at least the contact delay after the instant. */
  ghost predicate RipeTick(cfg: Config, run: seq<Moment>, m: nat, t: Time) {
    m < |run| && run[m].event.LoopTick? && run[m].now >= t + cfg.contactDelay
  }

  ghost predicate NotifIs(states: seq<Db>, k: nat, i: nat, n: Notification) {
    k < |states| && i < |states[k].notifs| && states[k].notifs[i] == n
  }

  lemma NotifAt(cfg: Config, states: seq<Db>, run: seq<Moment>, i: nat, n: Notification, b: nat, k: nat)
    requires IsRun(cfg, states, run) && b <= k < |run| && NotifIs(states, k, i, n) && n.notifiedAt.Some?
    requires UnansweredThrough(states, n.alarmId, b, k + 1) && Exists(cfg.users, n.userId)
    ensures NotifIs(states, k + 1, i, if RipeTick(cfg, run, k, n.notifiedAt.value)
                                      then n.(smsSent := true, callSent := true) else n)
  {
    assert Stepped(cfg, states, run, k);
    assert UnansweredIn(states[k].alarms, n.alarmId) && UnansweredIn(states[k + 1].alarms, n.alarmId);
    if run[k].event.LoopTick? {
      var db := states[k];
      TickIsContactsOnMid(cfg, db, run[k].now);
      EarlyContactWaits(cfg, db, run[k].now, i);
      if RipeTick(cfg, run, k, n.notifiedAt.value) {
        DueContactGoesOut(cfg, db, run[k].now, i);
      }
    } else {
      OnlyTicksMark(cfg, states[k], run[k].event, run[k].now, i);
    }
  }

  lemma {:induction false} StaysUnmarked(cfg: Config, states: seq<Db>, run: seq<Moment>, i: nat, n: Notification,
                                         b: nat, k: nat)
    requires IsRun(cfg, states, run) && b <= k <= |run| && NotifIs(states, b, i, n) && n.notifiedAt.Some?
    requires UnansweredThrough(states, n.alarmId, b, k) && Exists(cfg.users, n.userId)
    requires forall m | b <= m < k :: !RipeTick(cfg, run, m, n.notifiedAt.value)
    ensures NotifIs(states, k, i, n)
  {
    if b < k {
      StaysUnmarked(cfg, states, run, i, n, b, k - 1);
      NotifAt(cfg, states, run, i, n, b, k - 1);
    }
  }

  /** After step m the user of the notification has a call and an SMS about its alarm in the queues. */
  ghost predicate BothQueued(cfg: Config, states: seq<Db>, n: Notification, m: nat) {
    && m + 1 < |states| && n.alarmId < |states[m + 1].alarms|
    && forall number | HasNumber(cfg.users, n.userId, number) ::
         && CallIsQueued(states[m + 1].calls, number, n.alarmId)
         && SmsIsQueued(states[m + 1].sms, number, states[m + 1].alarms[n.alarmId])
  }

  lemma QueuedAt(cfg: Config, states: seq<Db>, run: seq<Moment>, i: nat, n: Notification, b: nat, k: nat)
    requires IsRun(cfg, states, run) && b <= k < |run| && NotifIs(states, k, i, n) && n.notifiedAt.Some?
    requires UnansweredThrough(states, n.alarmId, b, k + 1) && !n.smsSent && !n.callSent
    requires RipeTick(cfg, run, k, n.notifiedAt.value)
    ensures BothQueued(cfg, states, n, k)
  {
    assert Stepped(cfg, states, run, k);
    assert UnansweredIn(states[k].alarms, n.alarmId) && UnansweredIn(states[k + 1].alarms, n.alarmId);
    TickIsContactsOnMid(cfg, states[k], run[k].now);
    EarlyContactWaits(cfg, states[k], run[k].now, i);
    DueContactGoesOut(cfg, states[k], run[k].now, i);
  }

  /** Everybody notified is contacted, over any run: while his alarm stays unanswered, a user's notification is left
      unmarked before the first tick that comes at least the contact delay after it; that tick leaves a call and an SMS
      for him in the queues, if he has a number, and puts both marks on for good. */
  lemma {:induction false} EverybodyIsContacted(cfg: Config, states: seq<Db>, run: seq<Moment>, i: nat, n: Notification,
                                                b: nat, k: nat) returns (m: nat)
    requires IsRun(cfg, states, run) && b <= k <= |run| && NotifIs(states, b, i, n) && n.notifiedAt.Some?
    requires UnansweredThrough(states, n.alarmId, b, k) && Exists(cfg.users, n.userId) && !n.smsSent && !n.callSent
    requires exists m :: b <= m < k && RipeTick(cfg, run, m, n.notifiedAt.value)
    ensures b <= m < k && RipeTick(cfg, run, m, n.notifiedAt.value)
    ensures forall j | b <= j < m :: !RipeTick(cfg, run, j, n.notifiedAt.value)
    ensures forall j | b <= j <= m :: NotifIs(states, j, i, n)
    ensures BothQueued(cfg, states, n, m)
    ensures NotifIs(states, k, i, n.(smsSent := true, callSent := true))
  {
    if exists m :: b <= m < k - 1 && RipeTick(cfg, run, m, n.notifiedAt.value) {
      m := EverybodyIsContacted(cfg, states, run, i, n, b, k - 1);
      NotifAt(cfg, states, run, i, n.(smsSent := true, callSent := true), b, k - 1);
    } else {
      m := k - 1;
      forall j | b <= j <= m ensures NotifIs(states, j, i, n) {
        StaysUnmarked(cfg, states, run, i, n, b, j);
      }
      QueuedAt(cfg, states, run, i, n, b, m);
      NotifAt(cfg, states, run, i, n, b, m);
    }
  }
}
