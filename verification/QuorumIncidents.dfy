/** Emails of a quorum incident over whole runs, through changes of leader. */
module QuorumIncidents {
  import opened Basics
  import opened QuorumDetection
  import opened QuorumMonitor

  ghost predicate NoRepeat(seconds: seq<int>) {
    forall i, j | 0 <= i < j < |seconds| :: seconds[i] != seconds[j]
  }

  predicate IsWindow(seconds: int) { seconds == 3600 || seconds == 10800 || seconds == 21600 }

  /** Reminders imply an initial email, which implies a recorded loss; at most one reminder per window. */
  ghost predicate WellFormed(row: QuorumRow) {
    && (row.reminders != [] ==> row.emailSentAt.Some?)
    && (row.emailSentAt.Some? ==> row.lostSince.Some?)
    && NoRepeat(row.reminders)
    && forall d | d in row.reminders :: IsWindow(d)
  }

  /** The email is on record in the row. */
  predicate OnRecord(row: QuorumRow, email: Email) {
    match email
    case NoEmail => true
    case Initial => row.emailSentAt.Some?
    case Reminder(window) => WholeSeconds(window) in row.reminders
  }

  lemma ParsedMembership(raw: seq<int>, window: int)
    requires WholeSecond(window)
    ensures window in ParseReminders(raw) <==> WholeSeconds(window) in raw
  {
    var parsed := ParseReminders(raw);
    if window in parsed {
      var i :| 0 <= i < |parsed| && parsed[i] == window;
      WholeSecondsOfProduct(raw[i]);
    }
    if WholeSeconds(window) in raw {
      var i :| 0 <= i < |raw| && raw[i] == WholeSeconds(window);
      WholeSecondsExact(window);
      assert parsed[i] == window;
    }
  }

  lemma DumpAppended(raw: seq<int>, window: int)
    ensures DumpReminders(ParseReminders(raw) + [window]) == raw + [WholeSeconds(window)]
  {
    var dumped := DumpReminders(ParseReminders(raw) + [window]);
    forall i | 0 <= i < |raw| ensures dumped[i] == raw[i] {
      WholeSecondsOfProduct(raw[i]);
    }
  }

  lemma WindowsAreWhole(window: int)
    requires window in REMINDER_WINDOWS
    ensures WholeSecond(window) && IsWindow(WholeSeconds(window))
  {
    assert window == REMINDER_WINDOWS[0] || window == REMINDER_WINDOWS[1] || window == REMINDER_WINDOWS[2];
  }

  /** A check sends nothing that is on record, and puts on record what it sends. */
  lemma CheckRecords(row: QuorumRow, state: QuorumState, alertSet: bool, now: Time)
    ensures var (next, email) := CheckRow(row, state, alertSet, now);
            && OnRecord(next, email)
            && (email != NoEmail ==> !OnRecord(row, email) && state.isLost)
            && (email == Initial ==> next.emailSentAt == Some(now) && next.reminders == row.reminders)
            && (email.Reminder? ==>
                  && row.emailSentAt.Some? && now - row.emailSentAt.value >= email.window
                  && email.window in REMINDER_WINDOWS
                  && next.emailSentAt == row.emailSentAt
                  && next.reminders == row.reminders + [WholeSeconds(email.window)])
            && (email == NoEmail ==>
                  next == CLEAR_ROW || (next.emailSentAt == row.emailSentAt && next.reminders == row.reminders))
  {
    var (next, email) := CheckRow(row, state, alertSet, now);
    if email.Reminder? {
      ReminderIsLongestDue(state, row.emailSentAt, ParseReminders(row.reminders), now, email.window);
      WindowsAreWhole(email.window);
      ParsedMembership(row.reminders, email.window);
      DumpAppended(row.reminders, email.window);
    }
  }

  lemma CheckKeepsWellFormed(row: QuorumRow, state: QuorumState, alertSet: bool, now: Time)
    requires WellFormed(row) && (state.isLost ==> state.lostSince.Some?)
    ensures WellFormed(CheckRow(row, state, alertSet, now).0)
  {
    var (next, email) := CheckRow(row, state, alertSet, now);
    CheckRecords(row, state, alertSet, now);
    StartAfterCheck(row, state, alertSet, now);
    if email.Reminder? {
      WindowsAreWhole(email.window);
    }
  }

  // ----- runs -----

  ghost predicate Stepped(states: seq<MonitorState>, events: seq<MonitorEvent>, emails: seq<Email>, k: nat) {
    && k < |events| && |states| == |events| + 1 && |emails| == |events|
    && (states[k + 1], emails[k]) == MonitorStep(states[k], events[k])
  }

  /** Any run from a well-formed row: leader ticks with any snapshots and clocks, and nodes losing the lead. */
  ghost predicate IsMonitorRun(states: seq<MonitorState>, events: seq<MonitorEvent>, emails: seq<Email>) {
    && |states| == |events| + 1 && |emails| == |events|
    && WellFormed(states[0].row)
    && forall k: nat | k < |events| :: Stepped(states, events, emails, k)
  }

  /** One step of a run, as far as the row is concerned. */
  ghost predicate RowStep(row: QuorumRow, event: MonitorEvent, next: QuorumRow, email: Email) {
    if event.NotLeader? then next == row && email == NoEmail
    else exists state: QuorumState ::
      && (state.isLost ==> state.lostSince.Some?)
      && (next, email) == CheckRow(row, state, event.tick.alertSet, event.tick.snapshot.timestamp)
  }

  lemma StepOnRow(states: seq<MonitorState>, events: seq<MonitorEvent>, emails: seq<Email>, k: nat)
    requires Stepped(states, events, emails, k)
    ensures RowStep(states[k].row, events[k], states[k + 1].row, emails[k])
  {
    if events[k].LeaderTick? {
      var tick := events[k].tick;
      var earlier := Trim(states[k].history, tick.snapshot.timestamp - HISTORY_WINDOW);
      var found := Evaluate(tick.snapshot, earlier);
      assert found.isLost ==> found.lostSince.Some?;
      assert (states[k + 1].row, emails[k])
          == CheckRow(states[k].row, found, tick.alertSet, tick.snapshot.timestamp);
    }
  }

  lemma RowStepRecords(row: QuorumRow, event: MonitorEvent, next: QuorumRow, email: Email)
    requires RowStep(row, event, next, email) && WellFormed(row)
    ensures WellFormed(next) && OnRecord(next, email)
    ensures email != NoEmail ==> !OnRecord(row, email) && event.LeaderTick? && next.lostSince.Some?
    ensures email == Initial ==> next.emailSentAt == Some(event.tick.snapshot.timestamp)
    ensures email.Reminder? ==>
              row.emailSentAt.Some? && event.tick.snapshot.timestamp - row.emailSentAt.value >= email.window
    ensures email != Initial && next.emailSentAt.Some? ==> next.emailSentAt == row.emailSentAt
    ensures next.lostSince.Some? ==> forall e: Email :: OnRecord(row, e) ==> OnRecord(next, e)
  {
    if event.LeaderTick? {
      var now := event.tick.snapshot.timestamp;
      var state: QuorumState :| (state.isLost ==> state.lostSince.Some?)
                                && (next, email) == CheckRow(row, state, event.tick.alertSet, now);
      CheckRecords(row, state, event.tick.alertSet, now);
      CheckKeepsWellFormed(row, state, event.tick.alertSet, now);
      StartAfterCheck(row, state, event.tick.alertSet, now);
    }
  }

  lemma {:induction false} RunKeepsWellFormed(states: seq<MonitorState>, events: seq<MonitorEvent>, emails: seq<Email>,
                                              k: nat)
    requires IsMonitorRun(states, events, emails) && k <= |events|
    ensures WellFormed(states[k].row)
  {
    if k > 0 {
      RunKeepsWellFormed(states, events, emails, k - 1);
      assert Stepped(states, events, emails, k - 1);
      StepOnRow(states, events, emails, k - 1);
      RowStepRecords(states[k - 1].row, events[k - 1], states[k].row, emails[k - 1]);
    }
  }

  ghost predicate OngoingBetween(states: seq<MonitorState>, i: nat, j: nat) {
    forall k | i <= k <= j && k < |states| :: states[k].row.lostSince.Some?
  }

  lemma {:induction false} StaysOnRecord(states: seq<MonitorState>, events: seq<MonitorEvent>, emails: seq<Email>,
                                         i: nat, j: nat)
    requires IsMonitorRun(states, events, emails) && i < j <= |events| && OngoingBetween(states, i + 1, j)
    ensures OnRecord(states[j].row, emails[i])
    decreases j
  {
    RunKeepsWellFormed(states, events, emails, j - 1);
    assert Stepped(states, events, emails, j - 1);
    StepOnRow(states, events, emails, j - 1);
    RowStepRecords(states[j - 1].row, events[j - 1], states[j].row, emails[j - 1]);
    if j - 1 > i {
      StaysOnRecord(states, events, emails, i, j - 1);
    }
  }

  /** Within one incident no email is sent twice: at most one initial email and one reminder per window. */
  lemma OneEmailOfEachKind(states: seq<MonitorState>, events: seq<MonitorEvent>, emails: seq<Email>, i: nat, j: nat)
    requires IsMonitorRun(states, events, emails) && i < j < |events|
    requires emails[i] == emails[j] != NoEmail
    ensures !OngoingBetween(states, i + 1, j)
  {
    if OngoingBetween(states, i + 1, j) {
      StaysOnRecord(states, events, emails, i, j);
      RunKeepsWellFormed(states, events, emails, j);
      assert Stepped(states, events, emails, j);
      StepOnRow(states, events, emails, j);
      RowStepRecords(states[j].row, events[j], states[j + 1].row, emails[j]);
      assert false;
    }
  }

  /** Where the recorded sending time comes from. */
  lemma {:induction false} SentAtIsAnInitialEmail(states: seq<MonitorState>, events: seq<MonitorEvent>,
                                                  emails: seq<Email>, j: nat) returns (i: nat)
    requires IsMonitorRun(states, events, emails) && states[0].row == CLEAR_ROW
    requires j <= |events| && states[j].row.emailSentAt.Some?
    ensures i < j && emails[i] == Initial && events[i].LeaderTick?
    ensures states[j].row.emailSentAt == Some(events[i].tick.snapshot.timestamp)
    ensures OngoingBetween(states, i + 1, j)
    decreases j
  {
    RunKeepsWellFormed(states, events, emails, j);
    RunKeepsWellFormed(states, events, emails, j - 1);
    assert Stepped(states, events, emails, j - 1);
    StepOnRow(states, events, emails, j - 1);
    RowStepRecords(states[j - 1].row, events[j - 1], states[j].row, emails[j - 1]);
    if emails[j - 1] == Initial {
      i := j - 1;
    } else {
      i := SentAtIsAnInitialEmail(states, events, emails, j - 1);
    }
  }

  /** Every reminder comes at least its window after an initial email of the same incident. */
  lemma RemindersComeAfterTheirWindow(states: seq<MonitorState>, events: seq<MonitorEvent>, emails: seq<Email>, j: nat)
      returns (i: nat)
    requires IsMonitorRun(states, events, emails) && states[0].row == CLEAR_ROW
    requires j < |events| && emails[j].Reminder?
    ensures i < j && emails[i] == Initial && OngoingBetween(states, i + 1, j)
    ensures events[i].LeaderTick? && events[j].LeaderTick?
    ensures events[j].tick.snapshot.timestamp - events[i].tick.snapshot.timestamp >= emails[j].window
  {
    RunKeepsWellFormed(states, events, emails, j);
    assert Stepped(states, events, emails, j);
    StepOnRow(states, events, emails, j);
    RowStepRecords(states[j].row, events[j], states[j + 1].row, emails[j]);
    i := SentAtIsAnInitialEmail(states, events, emails, j);
  }
}
