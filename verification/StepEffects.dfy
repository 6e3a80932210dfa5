/** What each step does to the alarms, row by row: who acknowledges, who escalates, who is assigned. */
module StepEffects {
  import opened Basics
  import opened EscalationChain
  import opened AlarmTables
  import opened AlarmSteps
  import opened EscalationRuns
  import opened ContactRuns
  import opened ContactDelivery

  // ----- the two effects, in words -----

  /** Acknowledged by the user for exactly thirty minutes; assignee, level and timer as they were. */
  function AckedBy(x: Alarm, u: int, now: Time): Alarm {
    x.(status := Acknowledged, acknowledgedBy := Some(u), suspendedUntil := Some(now + 30 * MINUTE))
  }

  /** One level higher, with a new assignee and the timer started again. */
  function MovedTo(x: Alarm, u: int, now: Time): Alarm {
    x.(status := Escalated, assignee := Some(u), escalationCount := x.escalationCount + 1, createdAt := now)
  }

  ghost predicate IsNotified(notifs: seq<Notification>, a: nat, u: int) {
    exists i | 0 <= i < |notifs| :: notifs[i].alarmId == a && notifs[i].userId == u
  }

  /** The user has joined the alarm's notified users: by a new unmarked row, unless he was there already. */
  ghost predicate Joined(notifs: seq<Notification>, notifs': seq<Notification>, a: nat, u: int, now: Time) {
    notifs' == if IsNotified(notifs, a, u) then notifs else notifs + [Notification(a, u, Some(now), false, false)]
  }

  lemma NotifiedIs(notifs: seq<Notification>, a: nat, u: int)
    ensures IsNotified(notifs, a, u) <==> Notified(notifs, a, u)
  {
    if Notified(notifs, a, u) {
      var n :| n in notifs && n.alarmId == a && n.userId == u;
      var i :| 0 <= i < |notifs| && notifs[i] == n;
    }
  }

  // ----- answers to a call -----

  /** Answering "1", on the phone or by SMS, acknowledges: the call's alarm, if it still waits for an answer, is
      acknowledged by the call's user for thirty minutes; nothing else changes but the row of the call. */
  lemma KeyOneAcknowledges(cfg: Config, db: Db, c: nat, r: CallResult, now: Time)
    requires c < |db.calls| && (r == AckDtmf || r == AckSms)
    ensures var db', a, u := Step(cfg, db, CallResultPosted(c, r), now), db.calls[c].alarmId, db.calls[c].userId;
            && db'.notifs == db.notifs && db'.sms == db.sms && db'.gateways == db.gateways
            && db'.alarms == if UnansweredIn(db.alarms, a) then db.alarms[a := AckedBy(db.alarms[a], u, now)] else db.alarms
  {
  }

  /** Answering "2" moves the call's alarm to the next existing user of the chain, whatever its status, and notifies
      him; with nobody else in the chain nothing changes but the row of the call. */
  lemma KeyTwoEscalates(cfg: Config, db: Db, c: nat, now: Time)
    requires c < |db.calls|
    ensures var db', a := Step(cfg, db, CallResultPosted(c, EscalateKey), now), db.calls[c].alarmId;
            && db'.sms == db.sms && db'.gateways == db.gateways
            && if a < |db.alarms| && NextKnown(cfg, db.alarms[a]).Some? then
                 var next := NextKnown(cfg, db.alarms[a]).value;
                 && db'.alarms == db.alarms[a := MovedTo(db.alarms[a], next, now)]
                 && Joined(db.notifs, db'.notifs, a, next, now)
               else db'.alarms == db.alarms && db'.notifs == db.notifs
  {
    var a := db.calls[c].alarmId;
    var db1 := db.(calls := db.calls[c := CallAfter(db.calls[c], EscalateKey, now)]);
    OnlyOneNotified(db.notifs, KeyTargets(cfg, db1, a), a, now);
    if a < |db.alarms| && NextKnown(cfg, db.alarms[a]).Some? {
      NotifiedIs(db.notifs, a, NextKnown(cfg, db.alarms[a]).value);
    }
  }

  lemma {:induction false} OnlyOneNotified(notifs: seq<Notification>, targets: seq<Option<int>>, a: nat, now: Time)
    requires forall i | 0 <= i < |targets| && i != a :: targets[i].None?
    ensures NotifyTargets(notifs, targets, now)
            == if a < |targets| && targets[a].Some? then AddNotified(notifs, a, targets[a].value, now) else notifs
  {
    if targets != [] {
      OnlyOneNotified(notifs, targets[..|targets| - 1], a, now);
    }
  }

  /** Any other result touches no alarm. */
  lemma OtherResultsKeepAlarms(cfg: Config, db: Db, c: nat, r: CallResult, now: Time)
    requires r != AckDtmf && r != AckSms && r != EscalateKey
    ensures var db' := Step(cfg, db, CallResultPosted(c, r), now);
            db'.alarms == db.alarms && db'.notifs == db.notifs && db'.sms == db.sms && db'.gateways == db.gateways
  {
  }

  // ----- acknowledging from the app, by an SMS, and resolving -----

  /** From the app any notified user acknowledges, whatever the alarm's status; nobody else does. */
  lemma AppAcknowledges(cfg: Config, db: Db, a: nat, u: int, now: Time)
    ensures Step(cfg, db, Ack(a, u), now) ==
            if a < |db.alarms| && IsNotified(db.notifs, a, u)
            then db.(alarms := db.alarms[a := AckedBy(db.alarms[a], u, now)]) else db
  {
    NotifiedIs(db.notifs, a, u);
  }

  /** Resolving looks neither at the status nor at where the alarm came from, and changes only the status. */
  lemma ResolvingResolves(cfg: Config, db: Db, a: nat, now: Time)
    ensures Step(cfg, db, ResolveAlarm(a), now) ==
            if a < |db.alarms| then db.(alarms := db.alarms[a := db.alarms[a].(status := Resolved)]) else db
  {
  }

  /** The first user with the number. */
  ghost predicate IsPhoneUser(users: seq<User>, phone: string, u: User) {
    exists i | 0 <= i < |users| ::
      users[i] == u && u.phone == Some(phone) && forall j | 0 <= j < i :: users[j].phone != Some(phone)
  }

  ghost predicate WasSent(s: Sms, phone: string) { s.toNumber == phone && s.sentAt.Some? }

  /** The SMS sent last to the number, the first of equals. */
  ghost predicate IsLastSent(sms: seq<Sms>, phone: string, i: nat) {
    && i < |sms| && WasSent(sms[i], phone)
    && forall j | 0 <= j < |sms| && WasSent(sms[j], phone) ::
         sms[j].sentAt.value <= sms[i].sentAt.value && (sms[j].sentAt == sms[i].sentAt ==> i <= j)
  }

  /** The alarm is not resolved, and the user was notified of it. */
  ghost predicate MayAck(db: Db, a: nat, u: int) {
    a < |db.alarms| && db.alarms[a].status != Resolved && IsNotified(db.notifs, a, u)
  }

  /** The alarm's site is that of the last SMS sent to the number. */
  ghost predicate OnLastSite(cfg: Config, db: Db, phone: string, a: nat)
    requires a < |db.alarms|
  {
    exists i: nat :: IsLastSent(db.sms, phone, i)
                     && SiteOr(db.alarms[a].site, cfg.defaultSite) == SiteOr(db.sms[i].site, cfg.defaultSite)
  }

  /** Of the alarms the user may acknowledge, a comes first: those of the last SMS's site before the others, and in
      table order among themselves. */
  ghost predicate PhoneFinds(cfg: Config, db: Db, phone: string, a: nat, u: User) {
    && phone != "" && IsPhoneUser(cfg.users, phone, u) && MayAck(db, a, u.id)
    && forall b: nat | MayAck(db, b, u.id) ::
         if OnLastSite(cfg, db, phone, a) == OnLastSite(cfg, db, phone, b) then a <= b else OnLastSite(cfg, db, phone, a)
  }

  lemma {:induction false} PhoneUserIs(users: seq<User>, phone: string)
    ensures match UserByPhone(users, phone)
            case Some(id) => exists u :: IsPhoneUser(users, phone, u) && u.id == id
            case None => forall i | 0 <= i < |users| :: users[i].phone != Some(phone)
  {
    if users != [] {
      if users[0].phone == Some(phone) {
        assert IsPhoneUser(users, phone, users[0]);
      } else {
        var rest := users[1..];
        PhoneUserIs(rest, phone);
        if UserByPhone(rest, phone).Some? {
          var u :| IsPhoneUser(rest, phone, u) && u.id == UserByPhone(rest, phone).value;
          PhoneUserTail(users, phone, u);
        } else {
          assert forall i | 0 < i < |users| :: users[i] == rest[i - 1];
        }
      }
    }
  }

  lemma PhoneUserTail(users: seq<User>, phone: string, u: User)
    requires users != [] && users[0].phone != Some(phone) && IsPhoneUser(users[1..], phone, u)
    ensures IsPhoneUser(users, phone, u)
  {
    var rest := users[1..];
    var i :| 0 <= i < |rest| && rest[i] == u && u.phone == Some(phone)
             && forall j | 0 <= j < i :: rest[j].phone != Some(phone);
    assert users[i + 1] == u;
    forall j | 0 <= j < i + 1 ensures users[j].phone != Some(phone) {
      assert j > 0 ==> users[j] == rest[j - 1];
    }
  }

  lemma OnePhoneUser(users: seq<User>, phone: string, u: User, v: User)
    requires IsPhoneUser(users, phone, u) && IsPhoneUser(users, phone, v)
    ensures u == v
  {
    var i :| 0 <= i < |users| && users[i] == u && u.phone == Some(phone)
             && forall j | 0 <= j < i :: users[j].phone != Some(phone);
    var k :| 0 <= k < |users| && users[k] == v && v.phone == Some(phone)
             && forall j | 0 <= j < k :: users[j].phone != Some(phone);
    assert !(i < k) && !(k < i);
  }

  ghost predicate NothingSent(sms: seq<Sms>, phone: string) {
    forall j | 0 <= j < |sms| :: !WasSent(sms[j], phone)
  }

  lemma LastSentStays(sms: seq<Sms>, s: Sms, phone: string, i: nat)
    requires IsLastSent(sms, phone, i) && (WasSent(s, phone) ==> s.sentAt.value <= sms[i].sentAt.value)
    ensures IsLastSent(sms + [s], phone, i)
  {
  }

  lemma LastSentMoves(sms: seq<Sms>, s: Sms, phone: string)
    requires WasSent(s, phone)
    requires forall j | 0 <= j < |sms| && WasSent(sms[j], phone) :: sms[j].sentAt.value < s.sentAt.value
    ensures IsLastSent(sms + [s], phone, |sms|)
  {
  }

  lemma NothingSentOn(sms: seq<Sms>, s: Sms, phone: string)
    requires NothingSent(sms, phone) && !WasSent(s, phone)
    ensures NothingSent(sms + [s], phone)
  {
  }

  lemma {:induction false} LastSentIs(sms: seq<Sms>, phone: string) returns (i: nat)
    ensures var best := LastSent(sms, phone);
            if best.Some? then IsLastSent(sms, phone, i) && sms[i] == best.value else NothingSent(sms, phone)
  {
    i := 0;
    if sms != [] {
      var init, s := sms[..|sms| - 1], sms[|sms| - 1];
      assert sms == init + [s];
      i := LastSentIs(init, phone);
      var best := LastSent(init, phone);
      if WasSent(s, phone) && (best.None? || best.value.sentAt.value < s.sentAt.value) {
        LastSentMoves(init, s, phone);
        i := |init|;
      } else if best.Some? {
        LastSentStays(init, s, phone, i);
      } else {
        NothingSentOn(init, s, phone);
      }
    }
  }

  lemma OneLastSent(sms: seq<Sms>, phone: string, i: nat, j: nat)
    requires IsLastSent(sms, phone, i) && IsLastSent(sms, phone, j)
    ensures i == j
  {
  }

  ghost predicate AtSite(cfg: Config, db: Db, a: nat, site: Option<string>)
    requires a < |db.alarms|
  {
    site.None? || SiteOr(db.alarms[a].site, cfg.defaultSite) == site.value
  }

  lemma {:induction false} FirstAckableIs(cfg: Config, db: Db, u: int, site: Option<string>, from: nat)
    requires from <= |db.alarms|
    ensures match FirstAckable(cfg, db, u, site, from)
            case Some(a) => from <= a && MayAck(db, a, u) && AtSite(cfg, db, a, site)
                            && forall b: nat | from <= b && MayAck(db, b, u) && AtSite(cfg, db, b, site) :: a <= b
            case None => forall b: nat | from <= b && MayAck(db, b, u) :: !AtSite(cfg, db, b, site)
    decreases |db.alarms| - from
  {
    if from < |db.alarms| {
      NotifiedIs(db.notifs, from, u);
      FirstAckableIs(cfg, db, u, site, from + 1);
    }
  }

  lemma LastSiteIs(cfg: Config, db: Db, phone: string, a: nat)
    requires a < |db.alarms|
    ensures var last := LastSent(db.sms, phone);
            OnLastSite(cfg, db, phone, a) <==>
              last.Some? && AtSite(cfg, db, a, Some(SiteOr(last.value.site, cfg.defaultSite)))
  {
    var i := LastSentIs(db.sms, phone);
    forall j: nat | IsLastSent(db.sms, phone, j) ensures IsLastSent(db.sms, phone, i) && i == j {
      assert WasSent(db.sms[j], phone);
      OneLastSent(db.sms, phone, i, j);
    }
  }

  /** The alarm an SMS reply acknowledges. */
  lemma TargetIsFound(cfg: Config, db: Db, phone: string, u: User)
    requires phone != "" && IsPhoneUser(cfg.users, phone, u)
    ensures match PhoneAckTarget(cfg, db, u.id, phone)
            case Some(a) => PhoneFinds(cfg, db, phone, a, u)
            case None => forall a: nat :: !MayAck(db, a, u.id)
  {
    var last := LastSent(db.sms, phone);
    var site := if last.Some? then SiteOr(last.value.site, cfg.defaultSite) else "";
    FirstAckableIs(cfg, db, u.id, Some(site), 0);
    FirstAckableIs(cfg, db, u.id, None, 0);
    forall a: nat | MayAck(db, a, u.id)
      ensures OnLastSite(cfg, db, phone, a) <==> last.Some? && AtSite(cfg, db, a, Some(site))
      ensures AtSite(cfg, db, a, None)
    {
      LastSiteIs(cfg, db, phone, a);
    }
  }

  lemma OneFound(cfg: Config, db: Db, phone: string, a: nat, u: User, b: nat, v: User)
    requires PhoneFinds(cfg, db, phone, a, u) && PhoneFinds(cfg, db, phone, b, v)
    ensures a == b && u == v
  {
    OnePhoneUser(cfg.users, phone, u, v);
  }

  /** The alarm found, as the program computes it. */
  function PhoneTarget(cfg: Config, db: Db, phone: string): Option<nat> {
    var user := UserByPhone(cfg.users, phone);
    if phone == "" || user.None? then None else PhoneAckTarget(cfg, db, user.value, phone)
  }

  lemma PhoneFindsTarget(cfg: Config, db: Db, phone: string)
    ensures forall a: nat :: PhoneTarget(cfg, db, phone) == Some(a) <==> exists u :: PhoneFinds(cfg, db, phone, a, u)
  {
    PhoneUserIs(cfg.users, phone);
    if phone != "" && UserByPhone(cfg.users, phone).Some? {
      var v :| IsPhoneUser(cfg.users, phone, v) && v.id == UserByPhone(cfg.users, phone).value;
      TargetIsFound(cfg, db, phone, v);
      var target := PhoneTarget(cfg, db, phone);
      forall a: nat, u | PhoneFinds(cfg, db, phone, a, u) ensures target == Some(a) {
        OnePhoneUser(cfg.users, phone, u, v);
        assert MayAck(db, a, v.id);
        OneFound(cfg, db, phone, a, u, target.value, v);
      }
    } else {
      forall a: nat, u ensures !PhoneFinds(cfg, db, phone, a, u) {
      }
    }
  }

  /** An SMS reply acknowledges the alarm it finds, if that alarm still waits for an answer; nothing else changes. */
  lemma PhoneAcknowledges(cfg: Config, db: Db, phone: string, now: Time)
    ensures var db' := Step(cfg, db, PhoneAck(phone), now);
            && (forall a: nat, u | PhoneFinds(cfg, db, phone, a, u) ::
                  db' == if Unanswered(db.alarms[a]) then db.(alarms := db.alarms[a := AckedBy(db.alarms[a], u.id, now)])
                         else db)
            && ((forall a: nat, u :: !PhoneFinds(cfg, db, phone, a, u)) ==> db' == db)
  {
    PhoneUserIs(cfg.users, phone);
    if phone != "" && UserByPhone(cfg.users, phone).Some? {
      var v :| IsPhoneUser(cfg.users, phone, v) && v.id == UserByPhone(cfg.users, phone).value;
      TargetIsFound(cfg, db, phone, v);
      var target := PhoneAckTarget(cfg, db, v.id, phone);
      forall a: nat, u | PhoneFinds(cfg, db, phone, a, u) ensures u == v && target == Some(a) {
        OnePhoneUser(cfg.users, phone, u, v);
        assert MayAck(db, a, v.id);
        OneFound(cfg, db, phone, a, u, target.value, v);
      }
    } else {
      forall a: nat, u ensures !PhoneFinds(cfg, db, phone, a, u) {
      }
    }
  }

  // ----- escalation -----

  /** The administrator's button moves exactly the alarms that wait for an answer and have somebody to go to, each to
      the next existing user of the chain; with a chain whose users all exist, he is the successor of the assignee. */
  lemma AdminEscalatesExactly(cfg: Config, db: Db, now: Time, a: nat)
    requires a < |db.alarms|
    ensures var db', next := Step(cfg, db, AdminEscalate, now), NextKnown(cfg, db.alarms[a]);
            && |db'.alarms| == |db.alarms|
            && (FixedChain(cfg) ==> next == NextUserId(cfg.chain, db.alarms[a].assignee))
            && var moves := Unanswered(db.alarms[a]) && next.Some?;
               && db'.alarms[a] == (if moves then MovedTo(db.alarms[a], next.value, now) else db.alarms[a])
               && NotifiedUsers(db'.notifs, a) == NotifiedUsers(db.notifs, a) + (if moves then {next.value} else {})
  {
    if FixedChain(cfg) {
      NextKnownIsNext(cfg, db.alarms[a]);
    }
    NotifyTargetsAdds(db.notifs, AdminTargets(cfg, db), now, a);
  }

  /** The user has had his call of this level: placed, or given up after three tries. */
  ghost predicate CalledSince(calls: seq<Call>, a: nat, u: int, since: Time) {
    exists i | 0 <= i < |calls| ::
      calls[i].alarmId == a && calls[i].userId == u && calls[i].createdAt >= since
      && (calls[i].calledAt.Some? || calls[i].retries >= 3)
  }

  /** An SMS to the number was queued before the tick and still waits after it. */
  ghost predicate SmsStillWaits(db: Db, db': Db, number: string) {
    exists j | 0 <= j < |db.sms| && j < |db'.sms| :: db'.sms[j].toNumber == number && SmsWaits(db'.sms[j])
  }

  /** An acknowledgement that ended before now: the alarm is active again, and its timer starts again. */
  function Awake(x: Alarm, now: Time): Alarm {
    if x.status == Acknowledged && x.suspendedUntil.Some? && x.suspendedUntil.value < now
    then x.(status := Active, suspendedUntil := None, createdAt := now) else x
  }

  /** The alarm's user has a number, and his call of this level is not done yet or an SMS to him still waits. */
  ghost predicate StillContacting(cfg: Config, db: Db, db': Db, a: nat, x: Alarm) {
    && x.assignee.Some? && x.assignee.value != 0
    && exists number :: HasNumber(cfg.users, x.assignee.value, number)
                        && (!CalledSince(db.calls, a, x.assignee.value, x.createdAt) || SmsStillWaits(db, db', number))
  }

  lemma AwaitsExactly(cfg: Config, db: Db, now: Time, a: nat)
    requires a < |db.alarms| && Unanswered(Awake(db.alarms[a], now))
    ensures var mid := BeforeEscalation(cfg, db, now);
            && a < |mid.alarms|
            && (AwaitsCall(cfg, mid, a) <==>
                  StillContacting(cfg, db, Tick(cfg, db, now), a, Awake(db.alarms[a], now)))
  {
    var d1, mid, db', x := ExpireAcks(db, now), BeforeEscalation(cfg, db, now), Tick(cfg, db, now), Awake(db.alarms[a], now);
    TickIsContactsOnMid(cfg, db, now);
    assert mid.alarms[a] == x;
    if x.assignee.Some? {
      var u := x.assignee.value;
      NumberIs(cfg.users, u);
      SameCallsDone(d1, cfg, db.calls, mid.calls, a, u, x.createdAt);
      if PhoneOf(cfg.users, u).Some? {
        SameSmsWaiting(db, mid.sms, db', PhoneOf(cfg.users, u).value);
      }
    }
  }

  lemma SameCallsDone(d1: Db, cfg: Config, calls: seq<Call>, mid: seq<Call>, a: nat, u: int, since: Time)
    requires |mid| == |calls| && UnansweredIn(d1.alarms, a)
    requires forall i | 0 <= i < |calls| :: mid[i] == CancelCall(d1, calls[i])
    ensures CallDone(mid, a, u, since) <==> CalledSince(calls, a, u, since)
  {
    if CallDone(mid, a, u, since) {
      var c :| c in mid && c.alarmId == a && c.userId == u && c.createdAt >= since
               && (c.calledAt.Some? || c.retries >= MAX_RETRIES);
      var i :| 0 <= i < |mid| && mid[i] == c;
      assert calls[i] == c;
    }
    if CalledSince(calls, a, u, since) {
      var i :| 0 <= i < |calls| && calls[i].alarmId == a && calls[i].userId == u && calls[i].createdAt >= since
               && (calls[i].calledAt.Some? || calls[i].retries >= 3);
      assert mid[i] in mid;
    }
  }

  lemma SameSmsWaiting(db: Db, mid: seq<Sms>, db': Db, number: string)
    requires |mid| == |db.sms| && mid <= db'.sms
    ensures SmsQueued(mid, number) <==> SmsStillWaits(db, db', number)
  {
    if SmsQueued(mid, number) {
      var s :| s in mid && s.toNumber == number && SmsPending(s);
      var j :| 0 <= j < |mid| && mid[j] == s;
      assert db'.sms[j] == s;
    }
    if SmsStillWaits(db, db', number) {
      var j :| 0 <= j < |db.sms| && j < |db'.sms| && db'.sms[j].toNumber == number && SmsWaits(db'.sms[j]);
      assert mid[j] in mid;
    }
  }

  /** All that a tick does to an alarm: it wakes up when its acknowledgement has ended; and, waiting for an answer, it
      moves on when its level is at least the delay old, the chain has somebody else, and either its user is no longer
      being contacted or three more minutes have passed. */
  lemma TickOnAlarmExactly(cfg: Config, db: Db, now: Time, a: nat)
    requires a < |db.alarms|
    ensures var x, db' := Awake(db.alarms[a], now), Step(cfg, db, LoopTick, now);
            var next, age := NextUserId(cfg.chain, x.assignee), now - x.createdAt;
            && |db'.alarms| == |db.alarms|
            && db'.alarms[a] ==
               if && Unanswered(x) && age >= cfg.escalationDelay && next.Some? && next != x.assignee
                  && (age >= cfg.escalationDelay + 3 * MINUTE || !StillContacting(cfg, db, db', a, x))
               then MovedTo(x, next.value, now) else x
  {
    TickEvolves(cfg, db, now, a);
    BeforeEscalationStays(cfg, db, now, a);
    var mid := BeforeEscalation(cfg, db, now);
    assert mid.alarms[a] == Awake(db.alarms[a], now);
    if Unanswered(mid.alarms[a]) {
      AwaitsExactly(cfg, db, now, a);
    }
    assert Tick(cfg, db, now).alarms[a] == EscalateByTimer(cfg, mid, now).alarms[a];
  }
}
