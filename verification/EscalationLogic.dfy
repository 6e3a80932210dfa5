/** The decision loops of one tick: which alarms escalate, and which notifications are due for an SMS or a call. */
module EscalationLogic {
  import opened Basics
  import opened EscalationChain
  import opened AlarmTables
  import opened AlarmSteps

  datatype AlarmSnapshot = AlarmSnapshot(id: nat, status: Status, createdAt: Time, assignee: Option<int>)

  datatype Decision = Decision(alarmId: nat, fromUser: Option<int>, toUser: int, withoutCall: bool)

  datatype WakeUp = WakeUp(alarmId: nat, userId: int)

  // ----- evaluate_escalation -----

  function DecisionFor(
      s: AlarmSnapshot, chain: seq<Entry>, delay: int, now: Time, awaiting: set<nat>): Option<Decision>
  {
    var elapsed := now - s.createdAt;
    var next := NextUserId(chain, s.assignee);
    if (s.status == Active || s.status == Escalated)
       && elapsed >= delay && !(s.id in awaiting && elapsed < delay + CALL_WAIT_MAX)
       && next.Some? && next != s.assignee
    then Some(Decision(s.id, s.assignee, next.value, s.id in awaiting))
    else None
  }

  function Decisions(
      snaps: seq<AlarmSnapshot>, chain: seq<Entry>, delay: int, now: Time, awaiting: set<nat>): seq<Decision>
  {
    if snaps == [] then []
    else
      var k := |snaps| - 1;
      var d := DecisionFor(snaps[k], chain, delay, now, awaiting);
      var earlier := Decisions(snaps[..k], chain, delay, now, awaiting);
      if d.Some? then earlier + [d.value] else earlier
  }

  /** An offline assignee is woken up before his alarm moves on; an unknown user counts as online. */
  function WakeUps(decisions: seq<Decision>, online: map<int, bool>): seq<WakeUp> {
    if decisions == [] then []
    else
      var k := |decisions| - 1;
      var d := decisions[k];
      var earlier := WakeUps(decisions[..k], online);
      if d.fromUser.Some? && d.fromUser.value in online && !online[d.fromUser.value]
      then earlier + [WakeUp(d.alarmId, d.fromUser.value)] else earlier
  }

  method EvaluateEscalation(
      snaps: seq<AlarmSnapshot>, chain: seq<Entry>, online: map<int, bool>, delay: int, now: Time, awaiting: set<nat>)
    returns (escalations: seq<Decision>, wakeUps: seq<WakeUp>)
    ensures escalations == Decisions(snaps, chain, delay, now, awaiting)
    ensures wakeUps == WakeUps(escalations, online)
  {
    if chain == [] {
      NoChainNoDecision(snaps, chain, delay, now, awaiting);
      return [], [];
    }
    escalations, wakeUps := [], [];
    for i := 0 to |snaps|
      invariant escalations == Decisions(snaps[..i], chain, delay, now, awaiting)
      invariant wakeUps == WakeUps(escalations, online)
    {
      assert snaps[..i + 1][..i] == snaps[..i];
      var s := snaps[i];
      if s.status != Active && s.status != Escalated { continue; }
      var elapsed := now - s.createdAt;
      if elapsed < delay { continue; }
      var withoutCall := s.id in awaiting;
      if withoutCall && elapsed < delay + CALL_WAIT_MAX { continue; }
      var next := NextUserId(chain, s.assignee);
      if next.None? || next == s.assignee { continue; }
      if s.assignee.Some? && s.assignee.value in online && !online[s.assignee.value] {
        wakeUps := wakeUps + [WakeUp(s.id, s.assignee.value)];
      }
      var d := Decision(s.id, s.assignee, next.value, withoutCall);
      assert (escalations + [d])[..|escalations|] == escalations;
      escalations := escalations + [d];
    }
    assert snaps[..|snaps|] == snaps;
  }

  lemma {:induction false} NoChainNoDecision(
      snaps: seq<AlarmSnapshot>, chain: seq<Entry>, delay: int, now: Time, awaiting: set<nat>)
    requires chain == []
    ensures Decisions(snaps, chain, delay, now, awaiting) == []
  {
    if snaps != [] {
      NoChainNoDecision(snaps[..|snaps| - 1], chain, delay, now, awaiting);
    }
  }

  /** Woken up are exactly the users known to be offline whom a decision moves away from, once per decision. */
  lemma {:induction false} WakeUpsExactly(decisions: seq<Decision>, online: map<int, bool>)
    ensures forall a, u :: WakeUp(a, u) in WakeUps(decisions, online) <==>
              exists d :: d in decisions && d.alarmId == a && d.fromUser == Some(u) && u in online && !online[u]
    ensures |WakeUps(decisions, online)| <= |decisions|
  {
    if decisions != [] {
      var k := |decisions| - 1;
      assert decisions == decisions[..k] + [decisions[k]];
      WakeUpsExactly(decisions[..k], online);
    }
  }

  // ----- applying the decisions -----

  function LiveSnapshots(alarms: seq<Alarm>): seq<AlarmSnapshot> {
    if alarms == [] then []
    else
      var k := |alarms| - 1;
      var a := alarms[k];
      LiveSnapshots(alarms[..k])
      + if Live(a) then [AlarmSnapshot(k, a.status, a.createdAt, a.assignee)] else []
  }

  function ApplyDecision(db: Db, d: Decision, now: Time): Db {
    if d.alarmId < |db.alarms|
    then db.(alarms := db.alarms[d.alarmId := EscalateTo(db.alarms[d.alarmId], d.toUser, now)],
             notifs := AddNotified(db.notifs, d.alarmId, d.toUser, now))
    else db
  }

  function ApplyDecisions(db: Db, ds: seq<Decision>, now: Time): Db {
    if ds == [] then db
    else ApplyDecision(ApplyDecisions(db, ds[..|ds| - 1], now), ds[|ds| - 1], now)
  }

  /** The first k targets, nobody after them. */
  function Upto(targets: seq<Option<int>>, k: nat): (r: seq<Option<int>>)
    requires k <= |targets|
    ensures |r| == |targets|
  {
    seq(|targets|, i requires 0 <= i < |targets| => if i < k then targets[i] else None)
  }

  lemma {:induction false} NotifyUpto(notifs: seq<Notification>, targets: seq<Option<int>>, k: nat, now: Time)
    requires k <= |targets|
    ensures NotifyTargets(notifs, Upto(targets, k), now) == NotifyTargets(notifs, targets[..k], now)
  {
    if |targets| > k {
      var n := |targets| - 1;
      NotifyUpto(notifs, targets[..n], k, now);
      assert Upto(targets, k)[..n] == Upto(targets[..n], k);
      assert targets[..n][..k] == targets[..k];
    } else {
      assert Upto(targets, k) == targets;
      assert targets[..k] == targets;
    }
  }

  ghost predicate AwaitingIs(cfg: Config, db: Db, awaiting: set<nat>) {
    forall i | 0 <= i < |db.alarms| && Live(db.alarms[i]) :: i in awaiting <==> AwaitsCall(cfg, db, i)
  }

  lemma DecisionIsTarget(cfg: Config, db: Db, now: Time, awaiting: set<nat>, i: nat)
    requires i < |db.alarms| && Live(db.alarms[i]) && (i in awaiting <==> AwaitsCall(cfg, db, i))
    ensures var a := db.alarms[i];
            var d := DecisionFor(AlarmSnapshot(i, a.status, a.createdAt, a.assignee), cfg.chain, cfg.escalationDelay,
                                 now, awaiting);
            match TimerTarget(cfg, db, i, now)
            case None => d.None?
            case Some(u) => d == Some(Decision(i, a.assignee, u, AwaitsCall(cfg, db, i)))
  {
  }

  lemma DecisionsGrow(cfg: Config, db: Db, now: Time, awaiting: set<nat>, k: nat)
    requires AwaitingIs(cfg, db, awaiting) && k < |db.alarms|
    ensures var before := Decisions(LiveSnapshots(db.alarms[..k]), cfg.chain, cfg.escalationDelay, now, awaiting);
            var after := Decisions(LiveSnapshots(db.alarms[..k + 1]), cfg.chain, cfg.escalationDelay, now, awaiting);
            match TimerTarget(cfg, db, k, now)
            case None => after == before
            case Some(u) =>
              after == before + [Decision(k, db.alarms[k].assignee, u, AwaitsCall(cfg, db, k))]
  {
    assert db.alarms[..k + 1][..k] == db.alarms[..k];
    var snaps, a := LiveSnapshots(db.alarms[..k]), db.alarms[k];
    if Live(a) {
      DecisionIsTarget(cfg, db, now, awaiting, k);
      var s := AlarmSnapshot(k, a.status, a.createdAt, a.assignee);
      assert (snaps + [s])[..|snaps|] == snaps;
      assert LiveSnapshots(db.alarms[..k + 1]) == snaps + [s];
      assert forall ds: seq<Decision> :: ds + [] == ds;
    } else {
      assert LiveSnapshots(db.alarms[..k + 1]) == snaps;
    }
  }

  /** Deciding for the live alarms and applying the decisions one by one moves every alarm to its timer target. */
  lemma {:induction false} DecisionsReachTargets(cfg: Config, db: Db, now: Time, awaiting: set<nat>, k: nat)
    requires AwaitingIs(cfg, db, awaiting) && k <= |db.alarms|
    ensures var ds := Decisions(LiveSnapshots(db.alarms[..k]), cfg.chain, cfg.escalationDelay, now, awaiting);
            ApplyDecisions(db, ds, now) == ApplyTargets(db, Upto(TimerTargets(cfg, db, now), k), now)
  {
    var targets := TimerTargets(cfg, db, now);
    if k == 0 {
      NotifyUpto(db.notifs, targets, 0, now);
      assert ApplyTargets(db, Upto(targets, 0), now).alarms == db.alarms;
    } else {
      DecisionsReachTargets(cfg, db, now, awaiting, k - 1);
      DecisionsGrow(cfg, db, now, awaiting, k - 1);
      OneMoreTarget(db, targets, k - 1, now);
      var ds := Decisions(LiveSnapshots(db.alarms[..k - 1]), cfg.chain, cfg.escalationDelay, now, awaiting);
      if targets[k - 1].Some? {
        var d := Decision(k - 1, db.alarms[k - 1].assignee, targets[k - 1].value, AwaitsCall(cfg, db, k - 1));
        assert (ds + [d])[..|ds|] == ds;
      }
    }
  }

  lemma OneMoreTarget(db: Db, targets: seq<Option<int>>, k: nat, now: Time)
    requires |targets| == |db.alarms| && k < |targets|
    ensures var before, after := ApplyTargets(db, Upto(targets, k), now), ApplyTargets(db, Upto(targets, k + 1), now);
            if targets[k].None? then after == before
            else
              && after.alarms == before.alarms[k := EscalateTo(before.alarms[k], targets[k].value, now)]
              && after.notifs == AddNotified(before.notifs, k, targets[k].value, now)
              && after == before.(alarms := after.alarms, notifs := after.notifs)
  {
    NotifyUpto(db.notifs, targets, k, now);
    NotifyUpto(db.notifs, targets, k + 1, now);
    assert targets[..k + 1][..k] == targets[..k];
    if targets[k].None? {
      assert ApplyTargets(db, Upto(targets, k), now).alarms == ApplyTargets(db, Upto(targets, k + 1), now).alarms;
    }
  }

  // ----- evaluate_sms_call_timers -----

  /** Indices, in order, of the due notifications whose mark is still off. */
  function DueFor(cfg: Config, alarms: seq<Alarm>, notifs: seq<Notification>, now: Time, call: bool): seq<nat> {
    if notifs == [] then []
    else
      var k := |notifs| - 1;
      var n := notifs[k];
      var earlier := DueFor(cfg, alarms, notifs[..k], now, call);
      if ContactDue(cfg, alarms, n, now) && !(if call then n.callSent else n.smsSent) then earlier + [k] else earlier
  }

  lemma DueForOn(cfg: Config, alarms: seq<Alarm>, notifs: seq<Notification>, k: nat, now: Time, call: bool)
    requires k < |notifs|
    ensures var due, n := DueFor(cfg, alarms, notifs[..k], now, call), notifs[k];
            DueFor(cfg, alarms, notifs[..k + 1], now, call)
            == if ContactDue(cfg, alarms, n, now) && !(if call then n.callSent else n.smsSent) then due + [k] else due
  {
    assert notifs[..k + 1][..k] == notifs[..k];
  }

  method EvaluateSmsCallTimers(cfg: Config, alarms: seq<Alarm>, notifs: seq<Notification>, now: Time)
    returns (smsDue: seq<nat>, callsDue: seq<nat>)
    ensures smsDue == DueFor(cfg, alarms, notifs, now, false)
    ensures callsDue == DueFor(cfg, alarms, notifs, now, true)
  {
    smsDue, callsDue := [], [];
    for i := 0 to |notifs|
      invariant smsDue == DueFor(cfg, alarms, notifs[..i], now, false)
      invariant callsDue == DueFor(cfg, alarms, notifs[..i], now, true)
    {
      assert notifs[..i + 1][..i] == notifs[..i];
      var n := notifs[i];
      if n.notifiedAt.None? { continue; }
      if n.alarmId >= |alarms| { continue; }
      if !Live(alarms[n.alarmId]) { continue; }
      if now - n.notifiedAt.value < cfg.contactDelay { continue; }
      if !n.smsSent { smsDue := smsDue + [i]; }
      if !n.callSent { callsDue := callsDue + [i]; }
    }
    assert notifs[..|notifs|] == notifs;
  }

  /** A strictly increasing list of indices below n. */
  ghost predicate Rises(due: seq<nat>, n: nat) {
    (forall x | 0 <= x < |due| :: due[x] < n) && forall x, y | 0 <= x < y < |due| :: due[x] < due[y]
  }

  lemma RisesOn(due: seq<nat>, n: nat)
    requires Rises(due, n)
    ensures Rises(due, n + 1) && Rises(due + [n], n + 1)
  {
  }

  lemma {:induction false} DueForRises(
      cfg: Config, alarms: seq<Alarm>, notifs: seq<Notification>, now: Time, call: bool)
    ensures Rises(DueFor(cfg, alarms, notifs, now, call), |notifs|)
  {
    if notifs != [] {
      var k := |notifs| - 1;
      DueForRises(cfg, alarms, notifs[..k], now, call);
      RisesOn(DueFor(cfg, alarms, notifs[..k], now, call), k);
    }
  }

  lemma {:induction false} DueForIsExact(
      cfg: Config, alarms: seq<Alarm>, notifs: seq<Notification>, now: Time, call: bool)
    ensures var due := DueFor(cfg, alarms, notifs, now, call);
            && (forall i | i in due :: i < |notifs|)
            && Rises(due, |notifs|)
            && (forall i | 0 <= i < |notifs| ::
                  i in due <==> ContactDue(cfg, alarms, notifs[i], now)
                                && !(if call then notifs[i].callSent else notifs[i].smsSent))
  {
    if notifs != [] {
      var k := |notifs| - 1;
      DueForIsExact(cfg, alarms, notifs[..k], now, call);
    }
    DueForRises(cfg, alarms, notifs, now, call);
  }

  // ----- queueing what is due -----

  function FoldSms(cfg: Config, db: Db, due: seq<nat>, now: Time): seq<Sms> {
    if due == [] then []
    else
      var i, earlier := due[|due| - 1], FoldSms(cfg, db, due[..|due| - 1], now);
      if i < |db.notifs| then earlier + SmsFor(cfg, db, db.notifs[i], now) else earlier
  }

  function FoldCalls(cfg: Config, db: Db, due: seq<nat>, now: Time): seq<Call> {
    if due == [] then []
    else
      var i, earlier := due[|due| - 1], FoldCalls(cfg, db, due[..|due| - 1], now);
      if i < |db.notifs| then earlier + CallFor(cfg, db, db.notifs[i], now) else earlier
  }

  lemma FoldSmsOn(cfg: Config, db: Db, due: seq<nat>, next: seq<nat>, k: nat, now: Time)
    requires k < |db.notifs|
    requires next == if ContactDue(cfg, db.alarms, db.notifs[k], now) && !db.notifs[k].smsSent then due + [k] else due
    ensures FoldSms(cfg, db, next, now) == FoldSms(cfg, db, due, now) + SmsFor(cfg, db, db.notifs[k], now)
  {
    if next == due + [k] {
      assert next[..|due|] == due;
    } else {
      assert SmsFor(cfg, db, db.notifs[k], now) == [];
    }
  }

  lemma NewSmsOn(cfg: Config, db: Db, k: nat, now: Time)
    requires k < |db.notifs|
    ensures NewSms(cfg, db, db.notifs[..k + 1], now)
            == NewSms(cfg, db, db.notifs[..k], now) + SmsFor(cfg, db, db.notifs[k], now)
  {
    assert db.notifs[..k + 1][..k] == db.notifs[..k];
  }

  lemma {:induction false} FoldSmsIsNewSms(cfg: Config, db: Db, k: nat, now: Time)
    requires k <= |db.notifs|
    ensures FoldSms(cfg, db, DueFor(cfg, db.alarms, db.notifs[..k], now, false), now)
            == NewSms(cfg, db, db.notifs[..k], now)
  {
    if k > 0 {
      var n := k - 1;
      FoldSmsIsNewSms(cfg, db, n, now);
      DueForOn(cfg, db.alarms, db.notifs, n, now, false);
      var due, next := DueFor(cfg, db.alarms, db.notifs[..n], now, false), DueFor(cfg, db.alarms, db.notifs[..k], now, false);
      FoldSmsOn(cfg, db, due, next, n, now);
      NewSmsOn(cfg, db, n, now);
    }
  }

  lemma FoldCallsOn(cfg: Config, db: Db, due: seq<nat>, next: seq<nat>, k: nat, now: Time)
    requires k < |db.notifs|
    requires next == if ContactDue(cfg, db.alarms, db.notifs[k], now) && !db.notifs[k].callSent then due + [k] else due
    ensures FoldCalls(cfg, db, next, now) == FoldCalls(cfg, db, due, now) + CallFor(cfg, db, db.notifs[k], now)
  {
    if next == due + [k] {
      assert next[..|due|] == due;
    } else {
      assert CallFor(cfg, db, db.notifs[k], now) == [];
    }
  }

  lemma NewCallsOn(cfg: Config, db: Db, k: nat, now: Time)
    requires k < |db.notifs|
    ensures NewCalls(cfg, db, db.notifs[..k + 1], now)
            == NewCalls(cfg, db, db.notifs[..k], now) + CallFor(cfg, db, db.notifs[k], now)
  {
    assert db.notifs[..k + 1][..k] == db.notifs[..k];
  }

  lemma {:induction false} FoldCallsIsNewCalls(cfg: Config, db: Db, k: nat, now: Time)
    requires k <= |db.notifs|
    ensures FoldCalls(cfg, db, DueFor(cfg, db.alarms, db.notifs[..k], now, true), now)
            == NewCalls(cfg, db, db.notifs[..k], now)
  {
    if k > 0 {
      var n := k - 1;
      FoldCallsIsNewCalls(cfg, db, n, now);
      DueForOn(cfg, db.alarms, db.notifs, n, now, true);
      var due, next := DueFor(cfg, db.alarms, db.notifs[..n], now, true), DueFor(cfg, db.alarms, db.notifs[..k], now, true);
      FoldCallsOn(cfg, db, due, next, n, now);
      NewCallsOn(cfg, db, n, now);
    }
  }

  /** Queueing what the decision loop listed gives the rows the contact section adds. */
  lemma FoldsAreNewRows(cfg: Config, db: Db, now: Time)
    ensures FoldSms(cfg, db, DueFor(cfg, db.alarms, db.notifs, now, false), now) == NewSms(cfg, db, db.notifs, now)
    ensures FoldCalls(cfg, db, DueFor(cfg, db.alarms, db.notifs, now, true), now) == NewCalls(cfg, db, db.notifs, now)
  {
    var all := db.notifs[..|db.notifs|];
    FoldSmsIsNewSms(cfg, db, |db.notifs|, now);
    FoldCallsIsNewCalls(cfg, db, |db.notifs|, now);
    assert all == db.notifs;
  }
}
