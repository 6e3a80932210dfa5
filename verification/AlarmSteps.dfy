/** What each handler and each section of the escalation loop does to the tables, as functions of their content.
    One handler call, or one loop tick, is one atomic step at one instant. */
module AlarmSteps {
  import opened Basics
  import opened EscalationChain
  import opened AlarmTables

  // ----- loop section 1: expired acknowledgements -----

  predicate AckExpired(a: Alarm, now: Time) {
    a.status == Acknowledged && a.suspendedUntil.Some? && a.suspendedUntil.value < now
  }

  function Reactivate(a: Alarm, now: Time): Alarm {
    if AckExpired(a, now) then a.(status := Active, suspendedUntil := None, createdAt := now) else a
  }

  function Rearm(alarms: seq<Alarm>, n: Notification, now: Time): Notification {
    if n.alarmId < |alarms| && AckExpired(alarms[n.alarmId], now)
    then n.(smsSent := false, callSent := false, notifiedAt := Some(now))
    else n
  }

  function ExpireAcks(db: Db, now: Time): Db {
    db.(alarms := seq(|db.alarms|, i requires 0 <= i < |db.alarms| => Reactivate(db.alarms[i], now)),
        notifs := seq(|db.notifs|, i requires 0 <= i < |db.notifs| => Rearm(db.alarms, db.notifs[i], now)))
  }

  // ----- loop section 1b: contacts of acknowledged or resolved alarms leave the queues -----

  function CancelSms(cfg: Config, db: Db, s: Sms): Sms {
    if SmsPending(s) && SmsObsolete(cfg, db, s)
    then s.(retries := MAX_RETRIES, error := CANCELLED_SMS_ERROR)
    else s
  }

  function CancelCall(db: Db, c: Call): Call {
    if CallPending(c) && CallObsolete(db, c) then c.(retries := MAX_RETRIES, result := Some(Cancelled)) else c
  }

  function CancelObsolete(cfg: Config, db: Db): Db {
    db.(sms := seq(|db.sms|, i requires 0 <= i < |db.sms| => CancelSms(cfg, db, db.sms[i])),
        calls := seq(|db.calls|, i requires 0 <= i < |db.calls| => CancelCall(db, db.calls[i])))
  }

  // ----- escalation, whoever asks for it -----

  function EscalateTo(a: Alarm, next: int, now: Time): Alarm {
    a.(assignee := Some(next), status := Escalated, escalationCount := a.escalationCount + 1, createdAt := now)
  }

  function NotifyTargets(notifs: seq<Notification>, targets: seq<Option<int>>, now: Time): seq<Notification> {
    if targets == [] then notifs
    else
      var k := |targets| - 1;
      var before := NotifyTargets(notifs, targets[..k], now);
      if targets[k].Some? then AddNotified(before, k, targets[k].value, now) else before
  }

  /** targets[i] is the user alarm i moves to, None when it stays. */
  function ApplyTargets(db: Db, targets: seq<Option<int>>, now: Time): Db
    requires |targets| == |db.alarms|
  {
    db.(alarms := seq(|db.alarms|, i requires 0 <= i < |db.alarms| =>
                        if targets[i].Some? then EscalateTo(db.alarms[i], targets[i].value, now) else db.alarms[i]),
        notifs := NotifyTargets(db.notifs, targets, now))
  }

  /** Where the timer sends alarm i at this tick. */
  function TimerTarget(cfg: Config, db: Db, i: nat, now: Time): Option<int>
    requires i < |db.alarms|
  {
    var a := db.alarms[i];
    var elapsed := now - a.createdAt;
    if !Live(a) || elapsed < cfg.escalationDelay then None
    else if AwaitsCall(cfg, db, i) && elapsed < cfg.escalationDelay + CALL_WAIT_MAX then None
    else
      var next := NextUserId(cfg.chain, a.assignee);
      if next == a.assignee then None else next
  }

  function TimerTargets(cfg: Config, db: Db, now: Time): (t: seq<Option<int>>)
    ensures |t| == |db.alarms|
  {
    seq(|db.alarms|, i requires 0 <= i < |db.alarms| => TimerTarget(cfg, db, i, now))
  }

  function NextKnown(cfg: Config, a: Alarm): Option<int> {
    var e := NextKnownEntry(cfg.chain, a.assignee, KnownUsers(cfg.users));
    if e.Some? then Some(e.value.userId) else None
  }

  function AdminTargets(cfg: Config, db: Db): (t: seq<Option<int>>)
    ensures |t| == |db.alarms|
  {
    seq(|db.alarms|, i requires 0 <= i < |db.alarms| =>
      if Live(db.alarms[i]) then NextKnown(cfg, db.alarms[i]) else None)
  }

  /** Phone key "2" does not look at the alarm's status. */
  function KeyTargets(cfg: Config, db: Db, alarmId: nat): (t: seq<Option<int>>)
    ensures |t| == |db.alarms|
  {
    seq(|db.alarms|, i requires 0 <= i < |db.alarms| =>
      if i == alarmId then NextKnown(cfg, db.alarms[i]) else None)
  }

  function EscalateByTimer(cfg: Config, db: Db, now: Time): Db {
    ApplyTargets(db, TimerTargets(cfg, db, now), now)
  }

  function EscalateNow(cfg: Config, db: Db, now: Time): Db {
    ApplyTargets(db, AdminTargets(cfg, db), now)
  }

  // ----- loop section 3: SMS and calls due by the notification timer -----

  predicate ContactDue(cfg: Config, alarms: seq<Alarm>, n: Notification, now: Time) {
    && n.notifiedAt.Some?
    && n.alarmId < |alarms| && Live(alarms[n.alarmId])
    && now - n.notifiedAt.value >= cfg.contactDelay
  }

  /** The flags are set even for a user without a number, provided the user exists. */
  function MarkContacted(cfg: Config, alarms: seq<Alarm>, n: Notification, now: Time): Notification {
    if ContactDue(cfg, alarms, n, now) && FindUser(cfg.users, n.userId).Some?
    then n.(smsSent := true, callSent := true)
    else n
  }

  function MarkAll(cfg: Config, alarms: seq<Alarm>, notifs: seq<Notification>, now: Time): (r: seq<Notification>)
    ensures |r| == |notifs|
  {
    seq(|notifs|, i requires 0 <= i < |notifs| => MarkContacted(cfg, alarms, notifs[i], now))
  }

  function BodyOf(a: Alarm): SmsBody { SmsBody(a.site, a.title) }

  function SmsFor(cfg: Config, db: Db, n: Notification, now: Time): seq<Sms> {
    if !ContactDue(cfg, db.alarms, n, now) || n.smsSent then []
    else
      var a, phone := db.alarms[n.alarmId], PhoneOf(cfg.users, n.userId);
      if phone.None? then []
      else if exists s | s in db.sms :: s.toNumber == phone.value && s.body == BodyOf(a) && SmsPending(s) then []
      else [Sms(phone.value, BodyOf(a), now, None, 0, "", Some(SiteOr(a.site, cfg.defaultSite)))]
  }

  predicate CallQueued(calls: seq<Call>, number: string, alarmId: nat) {
    exists c | c in calls :: c.toNumber == number && c.alarmId == alarmId && CallPending(c)
  }

  function CallFor(cfg: Config, db: Db, n: Notification, now: Time): seq<Call> {
    if !ContactDue(cfg, db.alarms, n, now) || n.callSent then []
    else
      var a, phone := db.alarms[n.alarmId], PhoneOf(cfg.users, n.userId);
      if phone.None? then []
      else if CallQueued(db.calls, phone.value, n.alarmId) then []
      else [Call(phone.value, n.alarmId, n.userId, now, None, None, 0, Some(SiteOr(a.site, cfg.defaultSite)))]
  }

  /** The guards look at the tables as they were before this section: the session does not flush by itself. */
  function NewSms(cfg: Config, db: Db, notifs: seq<Notification>, now: Time): seq<Sms> {
    if notifs == [] then []
    else NewSms(cfg, db, notifs[..|notifs| - 1], now) + SmsFor(cfg, db, notifs[|notifs| - 1], now)
  }

  function NewCalls(cfg: Config, db: Db, notifs: seq<Notification>, now: Time): seq<Call> {
    if notifs == [] then []
    else NewCalls(cfg, db, notifs[..|notifs| - 1], now) + CallFor(cfg, db, notifs[|notifs| - 1], now)
  }

  function EnqueueContacts(cfg: Config, db: Db, now: Time): Db {
    db.(notifs := MarkAll(cfg, db.alarms, db.notifs, now),
        sms := db.sms + NewSms(cfg, db, db.notifs, now),
        calls := db.calls + NewCalls(cfg, db, db.notifs, now))
  }

  /** The tables as the escalation section of a tick finds them. */
  function BeforeEscalation(cfg: Config, db: Db, now: Time): Db {
    CancelObsolete(cfg, ExpireAcks(db, now))
  }

  /** One tick of the loop on the leader. */
  function Tick(cfg: Config, db: Db, now: Time): Db {
    EnqueueContacts(cfg, EscalateByTimer(cfg, BeforeEscalation(cfg, db, now), now), now)
  }

  // ----- acknowledgement, resolution, call and SMS results -----

  function AckAlarm(a: Alarm, userId: int, now: Time): Alarm {
    a.(status := Acknowledged, acknowledgedBy := Some(userId), suspendedUntil := Some(now + ACK_SUSPENSION))
  }

  /** Only a notified user may acknowledge; the alarm's status is not looked at. */
  function Acknowledge(db: Db, alarmId: nat, userId: int, now: Time): Db {
    if alarmId < |db.alarms| && Notified(db.notifs, alarmId, userId)
    then db.(alarms := db.alarms[alarmId := AckAlarm(db.alarms[alarmId], userId, now)])
    else db
  }

  function AckIfLive(db: Db, alarmId: nat, userId: int, now: Time): Db {
    if alarmId < |db.alarms| && Live(db.alarms[alarmId])
    then db.(alarms := db.alarms[alarmId := AckAlarm(db.alarms[alarmId], userId, now)])
    else db
  }

  function Resolve(db: Db, alarmId: nat): Db {
    if alarmId < |db.alarms|
    then db.(alarms := db.alarms[alarmId := db.alarms[alarmId].(status := Resolved)])
    else db
  }

  /** The queue row after a result: an unplaced call stays queued, any other result closes the row. */
  function CallAfter(c: Call, result: CallResult, now: Time): Call {
    c.(result := Some(result),
       calledAt := if result == CallError then c.calledAt else Some(now),
       retries := if result.AckDtmf? || result.AckSms? || result.EscalateKey? then c.retries else c.retries + 1)
  }

  function PostCallResult(cfg: Config, db: Db, callId: nat, result: CallResult, now: Time): Db {
    if callId >= |db.calls| then db
    else
      var row := db.calls[callId];
      var db' := db.(calls := db.calls[callId := CallAfter(row, result, now)]);
      match result
      case AckDtmf => AckIfLive(db', row.alarmId, row.userId, now)
      case AckSms => AckIfLive(db', row.alarmId, row.userId, now)
      case EscalateKey => ApplyTargets(db', KeyTargets(cfg, db', row.alarmId), now)
      case _ => db'
  }

  function MarkSent(db: Db, smsId: nat, now: Time): Db {
    if smsId < |db.sms| then db.(sms := db.sms[smsId := db.sms[smsId].(sentAt := Some(now))]) else db
  }

  function MarkSmsError(db: Db, smsId: nat, error: string): Db {
    if smsId < |db.sms|
    then db.(sms := db.sms[smsId := db.sms[smsId].(retries := db.sms[smsId].retries + 1, error := error)])
    else db
  }

  // ----- acknowledgement by an SMS reply -----

  function UserByPhone(users: seq<User>, phone: string): Option<int> {
    if users == [] then None
    else if users[0].phone == Some(phone) then Some(users[0].id)
    else UserByPhone(users[1..], phone)
  }

  /** The SMS sent last to a number; the first of equals. */
  function LastSent(sms: seq<Sms>, phone: string): Option<Sms> {
    if sms == [] then None
    else
      var best, s := LastSent(sms[..|sms| - 1], phone), sms[|sms| - 1];
      if s.toNumber == phone && s.sentAt.Some?
         && (best.None? || best.value.sentAt.None? || best.value.sentAt.value < s.sentAt.value)
      then Some(s) else best
  }

  /** First unresolved alarm the user was notified of, on the given site if one is given. */
  function FirstAckable(cfg: Config, db: Db, userId: int, site: Option<string>, from: nat): (r: Option<nat>)
    requires from <= |db.alarms|
    ensures r.Some? ==> r.value < |db.alarms| && Unresolved(db.alarms[r.value])
    decreases |db.alarms| - from
  {
    if from == |db.alarms| then None
    else if Unresolved(db.alarms[from]) && Notified(db.notifs, from, userId)
            && (site.None? || SiteOr(db.alarms[from].site, cfg.defaultSite) == site.value)
    then Some(from)
    else FirstAckable(cfg, db, userId, site, from + 1)
  }

  /** The alarms of the site of the last SMS sent to the number come first. */
  function PhoneAckTarget(cfg: Config, db: Db, userId: int, phone: string): (r: Option<nat>)
    ensures r.Some? ==> r.value < |db.alarms| && Unresolved(db.alarms[r.value])
  {
    var last := LastSent(db.sms, phone);
    var onSite := if last.Some?
                  then FirstAckable(cfg, db, userId, Some(SiteOr(last.value.site, cfg.defaultSite)), 0)
                  else None;
    if onSite.Some? then onSite else FirstAckable(cfg, db, userId, None, 0)
  }

  function AckByPhone(cfg: Config, db: Db, phone: string, now: Time): Db {
    var user := UserByPhone(cfg.users, phone);
    if phone == "" || user.None? then db
    else
      var target := PhoneAckTarget(cfg, db, user.value, phone);
      if target.Some? then AckIfLive(db, target.value, user.value, now) else db
  }

  // ----- creation -----

  /** Who a new alarm is assigned to: the requested user, else the head of the chain, else the first user. */
  function CreationAssignee(cfg: Config, requested: Option<int>): Option<int> {
    if requested.Some? then requested
    else if cfg.chain != [] then Some(cfg.chain[0].userId)
    else if cfg.users != [] then Some(cfg.users[0].id)
    else None
  }

  function FreshAlarm(title: string, assignee: Option<int>, source: Source, site: string, now: Time): Alarm {
    Alarm(title, Active, assignee, now, now, None, None, 0, source, Some(site), None, None)
  }

  function CreateAlarm(db: Db, title: string, assignee: Option<int>, source: Source, site: string, now: Time): Db {
    var id := |db.alarms|;
    db.(alarms := db.alarms + [FreshAlarm(title, assignee, source, site, now)],
        notifs := if assignee.Some? then AddNotified(db.notifs, id, assignee.value, now) else db.notifs)
  }

  /** A live alarm of the site refuses another one; an acknowledged alarm does not. */
  predicate SendAllowed(cfg: Config, db: Db, site: string) {
    site in cfg.knownSites && !exists a | a in db.alarms :: Live(a) && a.site == Some(site)
  }

  function SendAlarm(cfg: Config, db: Db, title: string, site: string, requested: Option<int>, now: Time): Db {
    if SendAllowed(cfg, db, site)
    then CreateAlarm(db, title, CreationAssignee(cfg, requested), Api, site, now)
    else db
  }

  // ----- gateway reports -----

  const GATEWAY_TITLE := "Déclenchement contact sec"

  predicate AliveAt(cfg: Config, g: Gateway, site: string, now: Time) {
    g.lastSeen > now - cfg.livenessWindow && (if g.site.Some? then g.site.value else cfg.defaultSite) == site
  }

  /** Some gateway of the site, seen within the window, reports the given state. */
  predicate SomeAlive(cfg: Config, gateways: map<string, Gateway>, site: string, open: bool, now: Time) {
    exists id | id in gateways :: AliveAt(cfg, gateways[id], site, now) && gateways[id].open == open
  }

  function Reconcile(cfg: Config, db: Db, site: string, shouldBeActive: bool, now: Time): Db {
    var first := FirstOpen(db.alarms, site);
    if shouldBeActive then
      if first.None? then CreateAlarm(db, GATEWAY_TITLE, CreationAssignee(cfg, None), GatewayDryContact, site, now)
      else db
    else if first.Some? && db.alarms[first.value].source == GatewayDryContact then Resolve(db, first.value)
    else db
  }

  predicate LiveGatewayAlarm(a: Alarm, site: string) {
    Live(a) && a.source == GatewayDryContact && a.site == Some(site)
  }

  function FirstLiveGatewayAlarm(alarms: seq<Alarm>, site: string, from: nat): (r: Option<nat>)
    requires from <= |alarms|
    ensures r.Some? ==> from <= r.value < |alarms| && LiveGatewayAlarm(alarms[r.value], site)
    ensures r.None? ==> forall i | from <= i < |alarms| :: !LiveGatewayAlarm(alarms[i], site)
    decreases |alarms| - from
  {
    if from == |alarms| then None
    else if LiveGatewayAlarm(alarms[from], site) then Some(from)
    else FirstLiveGatewayAlarm(alarms, site, from + 1)
  }

  predicate DissensusEmailDue(a: Alarm, divergent: bool, now: Time) {
    && divergent && a.dissensusSince.Some? && a.dissensusEmailAt.None?
    && now - a.dissensusSince.value > DISSENSUS_EMAIL_THRESHOLD
  }

  function DissensusMark(a: Alarm, divergent: bool, now: Time): Alarm {
    if !divergent then
      if a.dissensusSince.Some? then a.(dissensusSince := None, dissensusEmailAt := None) else a
    else if a.dissensusSince.None? then a.(dissensusSince := Some(now))
    else if DissensusEmailDue(a, divergent, now) then a.(dissensusEmailAt := Some(now))
    else a
  }

  function FlagDissensus(db: Db, site: string, divergent: bool, now: Time): Db {
    var i := FirstLiveGatewayAlarm(db.alarms, site, 0);
    if i.Some?
    then db.(alarms := db.alarms[i.value := DissensusMark(db.alarms[i.value], divergent, now)])
    else db
  }

  function ReportState(cfg: Config, db: Db, gatewayId: string, open: bool, payloadSite: Option<string>, now: Time): Db {
    var site := SiteOr(payloadSite, cfg.defaultSite);
    var gateways := db.gateways[gatewayId := Gateway(open, now, Some(site))];
    var someOpen := SomeAlive(cfg, gateways, site, true, now);
    var someClosed := SomeAlive(cfg, gateways, site, false, now);
    FlagDissensus(Reconcile(cfg, db.(gateways := gateways), site, someOpen, now), site, someOpen && someClosed, now)
  }

  // ----- runs -----

  datatype Event =
    | LoopTick
    | AdminEscalate
    | CallResultPosted(callId: nat, result: CallResult)
    | Ack(alarmId: nat, userId: int)
    | PhoneAck(phone: string)
    | ResolveAlarm(alarmId: nat)
    | Send(title: string, site: string, requested: Option<int>)
    | Report(gatewayId: string, open: bool, payloadSite: Option<string>)
    | SmsSent(smsId: nat)
    | SmsFailed(smsId: nat, error: string)

  function Step(cfg: Config, db: Db, ev: Event, now: Time): Db {
    match ev
    case LoopTick => Tick(cfg, db, now)
    case AdminEscalate => EscalateNow(cfg, db, now)
    case CallResultPosted(c, r) => PostCallResult(cfg, db, c, r, now)
    case Ack(a, u) => Acknowledge(db, a, u, now)
    case PhoneAck(p) => AckByPhone(cfg, db, p, now)
    case ResolveAlarm(a) => Resolve(db, a)
    case Send(t, s, u) => SendAlarm(cfg, db, t, s, u, now)
    case Report(g, o, s) => ReportState(cfg, db, g, o, s, now)
    case SmsSent(s) => MarkSent(db, s, now)
    case SmsFailed(s, e) => MarkSmsError(db, s, e)
  }

  datatype Moment = Moment(now: Time, event: Event)

  ghost predicate Stepped(cfg: Config, states: seq<Db>, run: seq<Moment>, k: nat)
    requires k < |run| < |states|
  {
    states[k + 1] == Step(cfg, states[k], run[k].event, run[k].now)
  }

  /** states[k] are the tables after the first k steps of the run. */
  ghost predicate IsRun(cfg: Config, states: seq<Db>, run: seq<Moment>) {
    |states| == |run| + 1 && forall k | 0 <= k < |run| :: Stepped(cfg, states, run, k)
  }
}
