/** Exactly which emails go out about a quorum incident, over whole runs, in terms of the ticks and the earlier emails. */
module IncidentEmails {
  import opened Basics
  import opened QuorumDetection
  import opened QuorumMonitor
  import opened QuorumIncidents
  import opened ReminderOrder

  predicate IsWindowLength(w: int) { w == 1 * HOUR || w == 3 * HOUR || w == 6 * HOUR }

  predicate Recordable(email: Email) { email == Initial || (email.Reminder? && IsWindowLength(email.window)) }

  /** The email went out at step i, and the incident has been on record ever since, up to step k. */
  ghost predicate SentInIncident(states: seq<MonitorState>, emails: seq<Email>, email: Email, i: nat, k: nat) {
    i < k <= |emails| && emails[i] == email && OngoingBetween(states, i + 1, k)
  }

  // ----- one check -----

  lemma WindowsAre(w: int)
    ensures w in REMINDER_WINDOWS <==> IsWindowLength(w)
    ensures IsWindowLength(w) ==> WholeSecond(w) && WholeSeconds(w) * SECOND == w
  {
    assert REMINDER_WINDOWS[0] == 1 * HOUR && REMINDER_WINDOWS[1] == 3 * HOUR && REMINDER_WINDOWS[2] == 6 * HOUR;
    if IsWindowLength(w) {
      assert WholeSecond(w);
      WholeSecondsExact(w);
    }
  }

  /** What is on record after a check was on record before it, or has just been sent. */
  lemma CheckRecordsOnly(row: QuorumRow, state: QuorumState, alertSet: bool, now: Time, e: Email)
    requires Recordable(e)
    ensures var (next, email) := CheckRow(row, state, alertSet, now);
            OnRecord(next, e) ==> OnRecord(row, e) || email == e
  {
    var (next, email) := CheckRow(row, state, alertSet, now);
    CheckRecords(row, state, alertSet, now);
    if e.Reminder? {
      WindowsAre(e.window);
      if email.Reminder? {
        WindowsAre(email.window);
      }
    }
  }

  lemma CheckSendsInitial(row: QuorumRow, state: QuorumState, alertSet: bool, now: Time)
    requires state.isLost ==> state.lostSince.Some?
    ensures var (next, email) := CheckRow(row, state, alertSet, now);
            && (next.lostSince.Some? <==> state.isLost)
            && (email == Initial <==> state.isLost && alertSet && row.emailSentAt.None?)
  {
    StartAfterCheck(row, state, alertSet, now);
  }

  ghost predicate RowDue(row: QuorumRow, now: Time, w: int) {
    && IsWindowLength(w) && row.emailSentAt.Some? && now - row.emailSentAt.value >= w
    && WholeSeconds(w) !in row.reminders
  }

  lemma CheckSendsReminder(row: QuorumRow, state: QuorumState, alertSet: bool, now: Time, w: int)
    requires state.isLost ==> state.lostSince.Some?
    ensures CheckRow(row, state, alertSet, now).1 == Reminder(w) <==>
              && state.isLost && alertSet && RowDue(row, now, w)
              && forall v | v > w :: !RowDue(row, now, v)
  {
    var sent := ParseReminders(row.reminders);
    ReminderIsLongestDue(state, row.emailSentAt, sent, now, w);
    forall v ensures v in REMINDER_WINDOWS && ReminderDue(row.emailSentAt, sent, now, v) <==> RowDue(row, now, v) {
      WindowsAre(v);
      if IsWindowLength(v) {
        ParsedMembership(row.reminders, v);
      }
    }
  }

  // ----- what is on record in a run -----

  lemma StepRecordsOnly(states: seq<MonitorState>, events: seq<MonitorEvent>, emails: seq<Email>, k: nat, e: Email)
    requires Stepped(states, events, emails, k) && Recordable(e)
    ensures OnRecord(states[k + 1].row, e) ==> OnRecord(states[k].row, e) || emails[k] == e
  {
    if events[k].LeaderTick? {
      var tick := events[k].tick;
      RowAt(states, events, emails, k);
      CheckRecordsOnly(states[k].row, Found(states[k], tick), tick.alertSet, tick.snapshot.timestamp, e);
    }
  }

  /** An email is on record exactly when it went out within the incident in progress. */
  lemma {:induction false} RecordIsTrue(states: seq<MonitorState>, events: seq<MonitorEvent>, emails: seq<Email>, k: nat,
                                        e: Email)
    requires IsMonitorRun(states, events, emails) && states[0].row == CLEAR_ROW && k <= |events| && Recordable(e)
    ensures OnRecord(states[k].row, e) <==> exists i: nat :: SentInIncident(states, emails, e, i, k)
  {
    RunKeepsWellFormed(states, events, emails, k);
    if i: nat :| SentInIncident(states, emails, e, i, k) {
      StaysOnRecord(states, events, emails, i, k);
    }
    if k > 0 && OnRecord(states[k].row, e) {
      assert Stepped(states, events, emails, k - 1);
      StepRecordsOnly(states, events, emails, k - 1, e);
      if emails[k - 1] == e {
        assert SentInIncident(states, emails, e, k - 1, k);
      } else {
        RecordIsTrue(states, events, emails, k - 1, e);
        var i: nat :| SentInIncident(states, emails, e, i, k - 1);
        assert SentInIncident(states, emails, e, i, k);
      }
    }
  }

  /** The date on record is that of the one initial email of the incident. */
  lemma InitialDated(states: seq<MonitorState>, events: seq<MonitorEvent>, emails: seq<Email>, k: nat, i: nat)
    requires IsMonitorRun(states, events, emails) && states[0].row == CLEAR_ROW && k <= |events|
    requires SentInIncident(states, emails, Initial, i, k)
    ensures events[i].LeaderTick? && states[k].row.emailSentAt == Some(events[i].tick.snapshot.timestamp)
  {
    RecordIsTrue(states, events, emails, k, Initial);
    var j := SentAtIsAnInitialEmail(states, events, emails, k);
    if i < j {
      OneEmailOfEachKind(states, events, emails, i, j);
    }
    if j < i {
      OneEmailOfEachKind(states, events, emails, j, i);
    }
  }

  // ----- the emails -----

  /** The tick finds a loss, and an address to write to. */
  ghost predicate WritesAt(states: seq<MonitorState>, events: seq<MonitorEvent>, k: nat) {
    && k < |events| && k + 1 < |states|
    && events[k].LeaderTick? && events[k].tick.alertSet && states[k + 1].row.lostSince.Some?
  }

  lemma CheckAt(states: seq<MonitorState>, events: seq<MonitorEvent>, emails: seq<Email>, k: nat, w: int)
    requires Stepped(states, events, emails, k)
    ensures emails[k] == Initial <==> WritesAt(states, events, k) && states[k].row.emailSentAt.None?
    ensures emails[k] == Reminder(w) <==>
              && WritesAt(states, events, k) && RowDue(states[k].row, events[k].tick.snapshot.timestamp, w)
              && forall v | v > w :: !RowDue(states[k].row, events[k].tick.snapshot.timestamp, v)
  {
    if events[k].LeaderTick? {
      var tick := events[k].tick;
      RowAt(states, events, emails, k);
      FoundIsDated(states[k], tick);
      CheckSendsInitial(states[k].row, Found(states[k], tick), tick.alertSet, tick.snapshot.timestamp);
      CheckSendsReminder(states[k].row, Found(states[k], tick), tick.alertSet, tick.snapshot.timestamp, w);
    }
  }

  /** The initial email goes out exactly when a tick finds a loss, has an address, and none has gone out in the incident. */
  lemma InitialExactlyWhen(states: seq<MonitorState>, events: seq<MonitorEvent>, emails: seq<Email>, k: nat)
    requires IsMonitorRun(states, events, emails) && states[0].row == CLEAR_ROW && k < |events|
    ensures emails[k] == Initial <==>
              WritesAt(states, events, k) && forall i: nat :: !SentInIncident(states, emails, Initial, i, k)
  {
    assert Stepped(states, events, emails, k);
    CheckAt(states, events, emails, k, 0);
    RecordIsTrue(states, events, emails, k, Initial);
  }

  /** The reminder of the window is due: it has not gone out in the incident, whose initial email is that old. */
  ghost predicate DueAt(states: seq<MonitorState>, events: seq<MonitorEvent>, emails: seq<Email>, k: nat, w: int)
    requires k < |events| && events[k].LeaderTick?
  {
    && IsWindowLength(w)
    && (exists i: nat :: SentInIncident(states, emails, Initial, i, k) && i < |events| && events[i].LeaderTick?
                         && events[k].tick.snapshot.timestamp - events[i].tick.snapshot.timestamp >= w)
    && forall j: nat :: !SentInIncident(states, emails, Reminder(w), j, k)
  }

  lemma RowDueIsDue(states: seq<MonitorState>, events: seq<MonitorEvent>, emails: seq<Email>, k: nat, w: int)
    requires IsMonitorRun(states, events, emails) && states[0].row == CLEAR_ROW
    requires k < |events| && events[k].LeaderTick?
    ensures RowDue(states[k].row, events[k].tick.snapshot.timestamp, w) <==> DueAt(states, events, emails, k, w)
  {
    RecordIsTrue(states, events, emails, k, Initial);
    if IsWindowLength(w) {
      RecordIsTrue(states, events, emails, k, Reminder(w));
    }
    forall i: nat | SentInIncident(states, emails, Initial, i, k)
      ensures events[i].LeaderTick? && states[k].row.emailSentAt == Some(events[i].tick.snapshot.timestamp)
    {
      InitialDated(states, events, emails, k, i);
    }
  }

  /** A reminder goes out exactly when a tick finds a loss, has an address, and its window is the longest one due. */
  lemma ReminderExactlyWhen(states: seq<MonitorState>, events: seq<MonitorEvent>, emails: seq<Email>, k: nat, w: int)
    requires IsMonitorRun(states, events, emails) && states[0].row == CLEAR_ROW && k < |events|
    ensures emails[k] == Reminder(w) <==>
              && WritesAt(states, events, k) && DueAt(states, events, emails, k, w)
              && forall v | v > w :: !DueAt(states, events, emails, k, v)
  {
    assert Stepped(states, events, emails, k);
    CheckAt(states, events, emails, k, w);
    if events[k].LeaderTick? {
      forall v ensures RowDue(states[k].row, events[k].tick.snapshot.timestamp, v) <==> DueAt(states, events, emails, k, v) {
        RowDueIsDue(states, events, emails, k, v);
      }
    }
  }

  /** Losing the lead forgets what was seen: the next leader's first tick finds no loss, and closes the incident. */
  lemma LosingTheLeadEndsTheIncident(states: seq<MonitorState>, events: seq<MonitorEvent>, emails: seq<Email>, k: nat)
    requires IsMonitorRun(states, events, emails) && k + 1 < |events|
    requires events[k].NotLeader? && events[k + 1].LeaderTick?
    ensures states[k + 1].history == [] && emails[k] == NoEmail && emails[k + 1] == NoEmail
    ensures states[k + 2].row.lostSince == None && states[k + 2].history == [events[k + 1].tick.snapshot]
  {
    assert Stepped(states, events, emails, k) && Stepped(states, events, emails, k + 1);
    var now := events[k + 1].tick.snapshot.timestamp;
    assert Trim(states[k + 1].history, now - HISTORY_WINDOW) == [];
    assert LatestFirst(Earlier([], now)) == [];
    assert !Evaluate(events[k + 1].tick.snapshot, []).isLost;
    assert [] + [events[k + 1].tick.snapshot] == [events[k + 1].tick.snapshot];
  }
}
