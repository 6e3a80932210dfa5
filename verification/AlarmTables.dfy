/** The rows the escalation backend keeps, and the questions its queries ask of them.
    A row's id is its index: ids are handed out in order and no row is ever deleted here. */
module AlarmTables {
  import opened Basics
  import opened EscalationChain

  datatype Status = Active | Escalated | Acknowledged | Resolved

  datatype Source = Api | GatewayDryContact

  datatype Alarm = Alarm(
    title: string,
    status: Status,
    assignee: Option<int>,
    createdAt: Time,             // the escalation timer: set again at every level
    originalCreatedAt: Time,
    suspendedUntil: Option<Time>,
    acknowledgedBy: Option<int>,
    escalationCount: nat,
    source: Source,
    site: Option<string>,
    dissensusSince: Option<Time>,
    dissensusEmailAt: Option<Time>)

  datatype Notification = Notification(
    alarmId: nat, userId: int, notifiedAt: Option<Time>, smsSent: bool, callSent: bool)

  /** An SMS text is a function of the alarm's site and title. */
  datatype SmsBody = SmsBody(site: Option<string>, title: string)

  datatype Sms = Sms(
    toNumber: string, body: SmsBody, createdAt: Time, sentAt: Option<Time>, retries: nat, error: string,
    site: Option<string>)

  datatype CallResult = AckDtmf | AckSms | EscalateKey | CallError | Cancelled | OtherResult(text: string)

  datatype Call = Call(
    toNumber: string, alarmId: nat, userId: int, createdAt: Time, calledAt: Option<Time>,
    result: Option<CallResult>, retries: nat, site: Option<string>)

  datatype Gateway = Gateway(open: bool, lastSeen: Time, site: Option<string>)

  datatype User = User(id: int, phone: Option<string>)

  /** What an administrator configures; the runs below keep it fixed. */
  datatype Config = Config(
    chain: seq<Entry>,
    users: seq<User>,
    escalationDelay: int,        // escalation_delay_minutes
    contactDelay: int,           // sms_call_delay_minutes
    defaultSite: string,
    knownSites: set<string>,
    livenessWindow: int)

  datatype Db = Db(
    alarms: seq<Alarm>, notifs: seq<Notification>, sms: seq<Sms>, calls: seq<Call>,
    gateways: map<string, Gateway>)

  const MAX_RETRIES: nat := 3
  const CALL_WAIT_MAX: int := 3 * MINUTE
  const ACK_SUSPENSION: int := 30 * MINUTE
  const DISSENSUS_EMAIL_THRESHOLD: int := 5 * MINUTE
  const CANCELLED_SMS_ERROR := "annulé : alarme acquittée ou résolue"

  predicate Live(a: Alarm) { a.status == Active || a.status == Escalated }

  predicate Unresolved(a: Alarm) { a.status != Resolved }

  predicate CallPending(c: Call) { c.calledAt.None? && c.retries < MAX_RETRIES }

  predicate SmsPending(s: Sms) { s.sentAt.None? && s.retries < MAX_RETRIES }

  // ----- users -----

  function FindUser(users: seq<User>, id: int): Option<User> {
    if users == [] then None
    else if users[0].id == id then Some(users[0])
    else FindUser(users[1..], id)
  }

  function KnownUsers(users: seq<User>): set<int> { set u | u in users :: u.id }

  /** The number used to contact a user; an empty one counts as none. */
  function PhoneOf(users: seq<User>, id: int): Option<string> {
    match FindUser(users, id)
    case None => None
    case Some(u) => if u.phone.Some? && u.phone.value != "" then u.phone else None
  }

  // ----- notifications -----

  predicate Notified(notifs: seq<Notification>, alarmId: nat, userId: int) {
    exists n | n in notifs :: n.alarmId == alarmId && n.userId == userId
  }

  function NotifiedUsers(notifs: seq<Notification>, alarmId: nat): set<int> {
    set n | n in notifs && n.alarmId == alarmId :: n.userId
  }

  function NewNotification(alarmId: nat, userId: int, now: Time): Notification {
    Notification(alarmId, userId, Some(now), false, false)
  }

  function AddNotified(notifs: seq<Notification>, alarmId: nat, userId: int, now: Time): seq<Notification> {
    if Notified(notifs, alarmId, userId) then notifs else notifs + [NewNotification(alarmId, userId, now)]
  }

  /** A user is notified of an alarm by one row at most. */
  ghost predicate UniqueNotifs(notifs: seq<Notification>) {
    forall i, j | 0 <= i < j < |notifs| ::
      notifs[i].alarmId != notifs[j].alarmId || notifs[i].userId != notifs[j].userId
  }

  lemma AddNotifiedAdds(notifs: seq<Notification>, alarmId: nat, userId: int, now: Time)
    ensures var after := AddNotified(notifs, alarmId, userId, now);
            && NotifiedUsers(after, alarmId) == NotifiedUsers(notifs, alarmId) + {userId}
            && (forall other: nat | other != alarmId :: NotifiedUsers(after, other) == NotifiedUsers(notifs, other))
            && (UniqueNotifs(notifs) ==> UniqueNotifs(after))
  {
    var after := AddNotified(notifs, alarmId, userId, now);
    if after != notifs {
      var n := NewNotification(alarmId, userId, now);
      assert forall m :: m in after <==> m in notifs || m == n;
      assert n in after;
      var a, b := NotifiedUsers(after, alarmId), NotifiedUsers(notifs, alarmId) + {userId};
      forall u ensures u in a <==> u in b {
      }
      forall i | 0 <= i < |notifs| ensures notifs[i].alarmId != alarmId || notifs[i].userId != userId {
        assert notifs[i] in notifs;
      }
    }
  }

  // ----- which alarm a queued contact belongs to -----

  /** The latest notification, up to the SMS's creation, of a user with its number; the first of equals. */
  function LatestNotice(users: seq<User>, notifs: seq<Notification>, number: string, until: Time): Option<Notification> {
    if notifs == [] then None
    else
      var best := LatestNotice(users, notifs[..|notifs| - 1], number, until);
      var n := notifs[|notifs| - 1];
      var u := FindUser(users, n.userId);
      if u.Some? && u.value.phone == Some(number) && n.notifiedAt.Some? && n.notifiedAt.value <= until
         && (best.None? || best.value.notifiedAt.None? || best.value.notifiedAt.value < n.notifiedAt.value)
      then Some(n) else best
  }

  function SmsAlarm(users: seq<User>, notifs: seq<Notification>, s: Sms): Option<nat> {
    var n := LatestNotice(users, notifs, s.toNumber, s.createdAt);
    if n.Some? then Some(n.value.alarmId) else None
  }

  predicate AlarmIsClosedToContact(alarms: seq<Alarm>, alarmId: nat) {
    alarmId < |alarms| && !Live(alarms[alarmId])
  }

  predicate SmsObsolete(cfg: Config, db: Db, s: Sms) {
    var a := SmsAlarm(cfg.users, db.notifs, s);
    a.Some? && AlarmIsClosedToContact(db.alarms, a.value)
  }

  predicate CallObsolete(db: Db, c: Call) { AlarmIsClosedToContact(db.alarms, c.alarmId) }

  // ----- waiting for the assignee's call -----

  predicate CallDone(calls: seq<Call>, alarmId: nat, userId: int, since: Time) {
    exists c | c in calls ::
      c.alarmId == alarmId && c.userId == userId && c.createdAt >= since
      && (c.calledAt.Some? || c.retries >= MAX_RETRIES)
  }

  predicate SmsQueued(sms: seq<Sms>, number: string) {
    exists s | s in sms :: s.toNumber == number && SmsPending(s)
  }

  /** The assignee has a number, and his call for this level or his SMS has not gone through yet. */
  predicate AwaitsCall(cfg: Config, db: Db, alarmId: nat)
    requires alarmId < |db.alarms|
  {
    var a := db.alarms[alarmId];
    && a.assignee.Some? && a.assignee.value != 0
    && var phone := PhoneOf(cfg.users, a.assignee.value);
       phone.Some?
       && (!CallDone(db.calls, alarmId, a.assignee.value, a.createdAt) || SmsQueued(db.sms, phone.value))
  }

  // ----- sites -----

  function SiteOr(site: Option<string>, fallback: string): string {
    if site.Some? && site.value != "" then site.value else fallback
  }

  predicate OpenAt(a: Alarm, site: string) { Unresolved(a) && a.site == Some(site) }

  /** First alarm of the site that is not resolved. */
  function FirstOpen(alarms: seq<Alarm>, site: string): Option<nat> {
    FirstOpenFrom(alarms, site, 0)
  }

  function FirstOpenFrom(alarms: seq<Alarm>, site: string, from: nat): (r: Option<nat>)
    requires from <= |alarms|
    ensures r.Some? ==> from <= r.value < |alarms| && OpenAt(alarms[r.value], site)
    ensures r.None? ==> forall i | from <= i < |alarms| :: !OpenAt(alarms[i], site)
    decreases |alarms| - from
  {
    if from == |alarms| then None
    else if OpenAt(alarms[from], site) then Some(from)
    else FirstOpenFrom(alarms, site, from + 1)
  }
}
