/** What an acknowledgement is worth over a run: thirty minutes of silence, unless the phone says otherwise. */
module AckRuns {
  import opened Basics
  import opened EscalationChain
  import opened AlarmTables
  import opened AlarmSteps
  import opened EscalationRuns
  import opened ContactRuns
  import opened ContactDelivery
  import opened StepEffects

  /** Resolved, or acknowledged until that instant at least. */
  predicate Silent(a: Alarm, until: Time) {
    a.status == Resolved || (a.status == Acknowledged && a.suspendedUntil.Some? && a.suspendedUntil.value >= until)
  }

  /** Phone key "2" on a call of the alarm, with somebody to go to: the one step that looks at no status. */
  ghost predicate KeyTwo(cfg: Config, db: Db, ev: Event, a: nat)
    requires a < |db.alarms|
  {
    && ev.CallResultPosted? && ev.result == EscalateKey && ev.callId < |db.calls| && db.calls[ev.callId].alarmId == a
    && NextKnown(cfg, db.alarms[a]).Some?
  }

  /** The alarm stays with its assignee, its level and its timer. */
  ghost predicate SameLevel(x: Alarm, y: Alarm) {
    y.assignee == x.assignee && y.escalationCount == x.escalationCount && y.createdAt == x.createdAt
  }

  // ----- one step -----

  lemma TickKeepsSilence(cfg: Config, db: Db, now: Time, a: nat, until: Time)
    requires a < |db.alarms| && Silent(db.alarms[a], until) && now <= until
    ensures |Tick(cfg, db, now).alarms| == |db.alarms| && Tick(cfg, db, now).alarms[a] == db.alarms[a]
  {
    TickEvolves(cfg, db, now, a);
    BeforeEscalationStays(cfg, db, now, a);
  }

  lemma ResultOnSilent(cfg: Config, db: Db, c: nat, r: CallResult, now: Time, a: nat, until: Time)
    requires a < |db.alarms| && Silent(db.alarms[a], until)
    ensures var alarms' := PostCallResult(cfg, db, c, r, now).alarms;
            && |alarms'| == |db.alarms|
            && if KeyTwo(cfg, db, CallResultPosted(c, r), a) then Live(alarms'[a]) else alarms'[a] == db.alarms[a]
  {
  }

  lemma ReportKeepsSilence(cfg: Config, db: Db, g: string, open: bool, s: Option<string>, now: Time, a: nat, until: Time)
    requires a < |db.alarms| && Silent(db.alarms[a], until)
    ensures var alarms' := ReportState(cfg, db, g, open, s, now).alarms;
            a < |alarms'| && Silent(alarms'[a], until) && SameLevel(db.alarms[a], alarms'[a])
  {
    ReportKeepsEscalation(cfg, db, g, open, s, now, a);
  }

  lemma AnswerKeepsSilence(cfg: Config, db: Db, ev: Event, now: Time, a: nat, until: Time)
    requires a < |db.alarms| && Silent(db.alarms[a], until) && until <= now + ACK_SUSPENSION
    requires !ev.LoopTick? && !ev.CallResultPosted? && !ev.Report?
    ensures var alarms' := Step(cfg, db, ev, now).alarms;
            a < |alarms'| && Silent(alarms'[a], until) && SameLevel(db.alarms[a], alarms'[a])
  {
  }

  /** Before its end, exactly one kind of step breaks an acknowledgement; no other touches assignee, level or timer. */
  lemma SilenceEndsExactly(cfg: Config, db: Db, ev: Event, now: Time, a: nat, until: Time)
    requires a < |db.alarms| && Silent(db.alarms[a], until) && now <= until <= now + ACK_SUSPENSION
    ensures var alarms' := Step(cfg, db, ev, now).alarms;
            && a < |alarms'|
            && (Silent(alarms'[a], until) <==> !KeyTwo(cfg, db, ev, a))
            && (Live(alarms'[a]) <==> KeyTwo(cfg, db, ev, a))
            && (!KeyTwo(cfg, db, ev, a) ==> SameLevel(db.alarms[a], alarms'[a]))
  {
    match ev
    case LoopTick => TickKeepsSilence(cfg, db, now, a, until);
    case CallResultPosted(c, r) => ResultOnSilent(cfg, db, c, r, now, a, until);
    case Report(g, o, s) => ReportKeepsSilence(cfg, db, g, o, s, now, a, until);
    case _ => AnswerKeepsSilence(cfg, db, ev, now, a, until);
  }

  // ----- nobody is contacted -----

  lemma {:induction false} NoRowsOfOthers(calls: seq<Call>, a: nat, u: int)
    requires forall c | c in calls :: c.alarmId != a
    ensures CallRows(calls, a, u) == 0
  {
    if calls != [] {
      assert calls[|calls| - 1] in calls;
      NoRowsOfOthers(calls[..|calls| - 1], a, u);
    }
  }

  /** The contact section queues nothing for an alarm that does not wait for an answer. */
  lemma NothingForSilent(cfg: Config, mid: Db, now: Time, a: nat, u: int)
    requires a < |mid.alarms| && !Live(mid.alarms[a])
    ensures CallRows(NewCalls(cfg, mid, mid.notifs, now), a, u) == 0
    ensures forall i | 0 <= i < |mid.notifs| && mid.notifs[i].alarmId == a :: SmsFor(cfg, mid, mid.notifs[i], now) == []
  {
    var added := NewCalls(cfg, mid, mid.notifs, now);
    NewCallsJustified(cfg, mid, mid.notifs, now);
    forall c | c in added ensures c.alarmId != a {
      var n :| n in mid.notifs && CallFrom(cfg, mid, n, c, now);
    }
    NoRowsOfOthers(added, a, u);
  }

  /** A tick contacts nobody about a silent alarm. */
  lemma TickContactsNobody(cfg: Config, db: Db, now: Time, a: nat, u: int, until: Time)
    requires a < |db.alarms| && Silent(db.alarms[a], until) && now <= until
    ensures CallRows(Tick(cfg, db, now).calls, a, u) == CallRows(db.calls, a, u)
    ensures !QueuesSms(cfg, db, LoopTick, now, a, u)
  {
    TickKeepsSilence(cfg, db, now, a, until);
    var mid := Mid(cfg, db, now);
    TickIsContactsOnMid(cfg, db, now);
    NothingForSilent(cfg, mid, now, a, u);
    SameCallRows(db.calls, mid.calls, a, u);
    CallRowsConcat(mid.calls, NewCalls(cfg, mid, mid.notifs, now), a, u);
  }

  lemma StepContactsNobody(cfg: Config, db: Db, ev: Event, now: Time, a: nat, u: int, until: Time)
    requires a < |db.alarms| && Silent(db.alarms[a], until) && now <= until
    ensures CallRows(Step(cfg, db, ev, now).calls, a, u) == CallRows(db.calls, a, u)
    ensures !QueuesSms(cfg, db, ev, now, a, u)
  {
    if ev.LoopTick? {
      TickContactsNobody(cfg, db, now, a, u, until);
    } else {
      StepKeepsCallRows(cfg, db, ev, now);
      SameCallRows(db.calls, Step(cfg, db, ev, now).calls, a, u);
    }
  }

  // ----- a run -----

  ghost predicate KeyTwoAt(cfg: Config, states: seq<Db>, run: seq<Moment>, a: nat, k: nat)
    requires k < |run| <= |states| && a < |states[k].alarms|
  {
    KeyTwo(cfg, states[k], run[k].event, a)
  }

  ghost predicate SilentAt(states: seq<Db>, a: nat, k: nat, until: Time) {
    k < |states| && a < |states[k].alarms| && Silent(states[k].alarms[a], until)
  }

  /** The steps that acknowledge alarm a: from the app by a notified user, by answering "1" to one of its calls, on the
      phone or by SMS, or by an SMS reply that finds it; the last two only an alarm that waits for an answer. */
  ghost predicate AckStep(cfg: Config, db: Db, ev: Event, a: nat)
    requires a < |db.alarms|
  {
    match ev
    case Ack(x, u) => x == a && IsNotified(db.notifs, a, u)
    case CallResultPosted(c, r) =>
      c < |db.calls| && db.calls[c].alarmId == a && (r == AckDtmf || r == AckSms) && Unanswered(db.alarms[a])
    case PhoneAck(phone) => Unanswered(db.alarms[a]) && exists u :: PhoneFinds(cfg, db, phone, a, u)
    case _ => false
  }

  /** Who acknowledges then. */
  ghost predicate AcksAs(cfg: Config, db: Db, ev: Event, a: nat, u: int) {
    match ev
    case Ack(_, who) => u == who
    case CallResultPosted(c, _) => c < |db.calls| && u == db.calls[c].userId
    case PhoneAck(phone) => exists who :: PhoneFinds(cfg, db, phone, a, who) && u == who.id
    case _ => false
  }

  /** Every way of acknowledging does the same to the alarm, and nothing to the others. */
  lemma AckStepAcknowledges(cfg: Config, db: Db, ev: Event, now: Time, a: nat) returns (u: int)
    requires a < |db.alarms| && AckStep(cfg, db, ev, a)
    ensures AcksAs(cfg, db, ev, a, u)
    ensures Step(cfg, db, ev, now).alarms == db.alarms[a := AckedBy(db.alarms[a], u, now)]
  {
    match ev
    case Ack(x, who) =>
      u := who;
      AppAcknowledges(cfg, db, a, who, now);
    case CallResultPosted(c, r) =>
      u := db.calls[c].userId;
      KeyOneAcknowledges(cfg, db, c, r, now);
    case PhoneAck(phone) =>
      var who :| PhoneFinds(cfg, db, phone, a, who);
      u := who.id;
      PhoneAcknowledges(cfg, db, phone, now);
  }

  ghost predicate AckStepAt(cfg: Config, states: seq<Db>, run: seq<Moment>, a: nat, i: nat)
    requires i < |run| <= |states| && a < |states[i].alarms|
  {
    AckStep(cfg, states[i], run[i].event, a)
  }

  /** Step i acknowledges alarm a, and the steps up to k come within the thirty minutes that follow. */
  ghost predicate Acknowledges(cfg: Config, states: seq<Db>, run: seq<Moment>, a: nat, i: nat, k: nat) {
    && i < k <= |run| < |states| && a < |states[i].alarms|
    && AckStepAt(cfg, states, run, a, i)
    && forall j | i < j < k :: run[i].now <= run[j].now <= run[i].now + ACK_SUSPENSION
  }

  function Until(run: seq<Moment>, i: nat): Time
    requires i < |run|
  {
    run[i].now + ACK_SUSPENSION
  }

  lemma AckAt(cfg: Config, states: seq<Db>, run: seq<Moment>, a: nat, i: nat)
    requires IsRun(cfg, states, run) && Acknowledges(cfg, states, run, a, i, i + 1)
    ensures SilentAt(states, a, i + 1, Until(run, i)) && SameLevel(states[i].alarms[a], states[i + 1].alarms[a])
  {
    assert Stepped(cfg, states, run, i);
    var u := AckStepAcknowledges(cfg, states[i], run[i].event, run[i].now, a);
  }

  lemma SilenceAt(cfg: Config, states: seq<Db>, run: seq<Moment>, a: nat, k: nat, until: Time)
    requires IsRun(cfg, states, run) && k < |run| && SilentAt(states, a, k, until)
    requires run[k].now <= until <= run[k].now + ACK_SUSPENSION
    ensures SilentAt(states, a, k + 1, until) <==> !KeyTwoAt(cfg, states, run, a, k)
    ensures !KeyTwoAt(cfg, states, run, a, k) ==> SameLevel(states[k].alarms[a], states[k + 1].alarms[a])
  {
    assert Stepped(cfg, states, run, k);
    SilenceEndsExactly(cfg, states[k], run[k].event, run[k].now, a, until);
  }

  /** No key "2" answers a call of the alarm among the steps after i, up to k. */
  ghost predicate NoKeyTwo(cfg: Config, states: seq<Db>, run: seq<Moment>, a: nat, i: nat, k: nat)
    requires k <= |run| <= |states|
  {
    forall j | i < j < k :: a < |states[j].alarms| && !KeyTwoAt(cfg, states, run, a, j)
  }

  /** Over a run, an acknowledgement holds through its thirty minutes exactly when no key "2" with somebody to go to
      answers one of the alarm's calls meanwhile; while it holds, assignee, level and timer stay as they were. */
  lemma {:induction false} AckHoldsExactly(cfg: Config, states: seq<Db>, run: seq<Moment>, a: nat, i: nat, k: nat)
    requires IsRun(cfg, states, run) && Acknowledges(cfg, states, run, a, i, k)
    ensures (forall j | i < j <= k :: SilentAt(states, a, j, Until(run, i))) <==> NoKeyTwo(cfg, states, run, a, i, k)
    ensures NoKeyTwo(cfg, states, run, a, i, k) ==>
              SilentAt(states, a, k, Until(run, i)) && SameLevel(states[i].alarms[a], states[k].alarms[a])
    decreases k
  {
    if k == i + 1 {
      AckAt(cfg, states, run, a, i);
    } else {
      AckHoldsExactly(cfg, states, run, a, i, k - 1);
      if NoKeyTwo(cfg, states, run, a, i, k - 1) {
        SilenceAt(cfg, states, run, a, k - 1, Until(run, i));
      }
    }
  }

  /** And while it holds nobody is contacted about the alarm: no call is queued, and no SMS. */
  lemma {:induction false} AckedIsNotContacted(cfg: Config, states: seq<Db>, run: seq<Moment>, a: nat, u: int, i: nat,
                                               k: nat)
    requires IsRun(cfg, states, run) && Acknowledges(cfg, states, run, a, i, k) && NoKeyTwo(cfg, states, run, a, i, k)
    ensures CallRows(states[k].calls, a, u) == CallRows(states[i + 1].calls, a, u)
    ensures SmsQueuedFor(cfg, states, run, a, u, i + 1, k) == 0
    decreases k
  {
    if k > i + 1 {
      AckedIsNotContacted(cfg, states, run, a, u, i, k - 1);
      QuietStep(cfg, states, run, a, u, i, k);
    }
  }

  /** The last of the steps adds nothing. */
  lemma QuietStep(cfg: Config, states: seq<Db>, run: seq<Moment>, a: nat, u: int, i: nat, k: nat)
    requires IsRun(cfg, states, run) && Acknowledges(cfg, states, run, a, i, k) && NoKeyTwo(cfg, states, run, a, i, k)
    requires k > i + 1
    ensures CallRows(states[k].calls, a, u) == CallRows(states[k - 1].calls, a, u)
    ensures !QueuesSms(cfg, states[k - 1], run[k - 1].event, run[k - 1].now, a, u)
  {
    AckHoldsExactly(cfg, states, run, a, i, k - 1);
    NotContactedAt(cfg, states, run, a, u, k - 1, Until(run, i));
    assert !QueuesSmsAt(cfg, states, run, a, u, k - 1);
  }

  lemma NotContactedAt(cfg: Config, states: seq<Db>, run: seq<Moment>, a: nat, u: int, k: nat, until: Time)
    requires IsRun(cfg, states, run) && k < |run| && SilentAt(states, a, k, until) && run[k].now <= until
    ensures CallRows(states[k + 1].calls, a, u) == CallRows(states[k].calls, a, u)
    ensures !QueuesSmsAt(cfg, states, run, a, u, k)
  {
    assert Stepped(cfg, states, run, k);
    StepContactsNobody(cfg, states[k], run[k].event, run[k].now, a, u, until);
  }
}
