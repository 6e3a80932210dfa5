/** The order of the reminders of one incident: when a shorter one can follow a longer one. */
module ReminderOrder {
  import opened Basics
  import opened QuorumDetection
  import opened QuorumMonitor
  import opened QuorumIncidents

  /** The reminders on record come from the shortest window to the longest. */
  ghost predicate Rising(reminders: seq<int>) {
    forall i, j | 0 <= i < j < |reminders| :: reminders[i] < reminders[j]
  }

  /** A window is due and unsent, it is the one the check would choose, and a longer one is already on record. */
  predicate Overtaken(row: QuorumRow, now: Time) {
    exists w | w in REMINDER_WINDOWS ::
      && ReminderDue(row.emailSentAt, ParseReminders(row.reminders), now, w)
      && (forall v | v in REMINDER_WINDOWS && v > w :: !ReminderDue(row.emailSentAt, ParseReminders(row.reminders), now, v))
      && exists r | r in row.reminders :: r > WholeSeconds(w)
  }

  // ----- one check -----

  lemma RisingAppend(reminders: seq<int>, d: int)
    requires Rising(reminders)
    ensures Rising(reminders + [d]) <==> d !in reminders && forall r | r in reminders :: r < d
  {
    var longer := reminders + [d];
    if Rising(longer) {
      forall r | r in reminders ensures r < d {
        var i :| 0 <= i < |reminders| && reminders[i] == r;
        assert longer[i] < longer[|reminders|];
      }
    }
    if forall r | r in reminders :: r < d {
      forall i, j | 0 <= i < j < |longer| ensures longer[i] < longer[j] {
        assert j == |reminders| ==> reminders[i] in reminders;
      }
    }
  }

  /** A check breaks the order exactly when the reminder it sends is shorter than one on record. */
  lemma CheckBreaksOrder(row: QuorumRow, state: QuorumState, alertSet: bool, now: Time)
    requires Rising(row.reminders)
    ensures var (next, email) := CheckRow(row, state, alertSet, now);
            Rising(next.reminders) <==>
              !(email.Reminder? && exists r | r in row.reminders :: r > WholeSeconds(email.window))
  {
    var (next, email) := CheckRow(row, state, alertSet, now);
    CheckRecords(row, state, alertSet, now);
    if email.Reminder? {
      assert WholeSeconds(email.window) !in row.reminders;
      RisingAppend(row.reminders, WholeSeconds(email.window));
    }
  }

  /** The reminder a check sends on this row, when it sends one. */
  lemma CheckSends(row: QuorumRow, state: QuorumState, alertSet: bool, now: Time, window: int)
    requires state.isLost ==> state.lostSince.Some?
    ensures CheckRow(row, state, alertSet, now).1 == Reminder(window) <==>
              alertSet && ShouldSendReminder(state, row.emailSentAt, ParseReminders(row.reminders), now) == Some(window)
  {
  }

  /** The same condition, read on the row before the check: an overtaken window, a loss, and an address to write to. */
  lemma CheckKeepsOrderExactly(row: QuorumRow, state: QuorumState, alertSet: bool, now: Time)
    requires Rising(row.reminders) && (state.isLost ==> state.lostSince.Some?)
    ensures Rising(CheckRow(row, state, alertSet, now).0.reminders) <==> !(state.isLost && alertSet && Overtaken(row, now))
  {
    var (next, email) := CheckRow(row, state, alertSet, now);
    CheckBreaksOrder(row, state, alertSet, now);
    if email.Reminder? {
      CheckSends(row, state, alertSet, now, email.window);
      ReminderIsLongestDue(state, row.emailSentAt, ParseReminders(row.reminders), now, email.window);
    }
    if state.isLost && alertSet && Overtaken(row, now) {
      var w :| && w in REMINDER_WINDOWS
               && ReminderDue(row.emailSentAt, ParseReminders(row.reminders), now, w)
               && (forall v | v in REMINDER_WINDOWS && v > w ::
                     !ReminderDue(row.emailSentAt, ParseReminders(row.reminders), now, v))
               && exists r | r in row.reminders :: r > WholeSeconds(w);
      ReminderIsLongestDue(state, row.emailSentAt, ParseReminders(row.reminders), now, w);
      CheckSends(row, state, alertSet, now, w);
    }
  }

  // ----- runs -----

  /** What the check of a tick evaluates. */
  function Found(s: MonitorState, tick: Tick): QuorumState {
    Evaluate(tick.snapshot, Trim(s.history, tick.snapshot.timestamp - HISTORY_WINDOW))
  }

  /** Readable before step k: its tick finds the quorum lost, has an address, and the row holds an overtaken window. */
  predicate OvertakenAt(states: seq<MonitorState>, events: seq<MonitorEvent>, k: nat)
    requires k < |events| && k < |states|
  {
    && events[k].LeaderTick?
    && var tick := events[k].tick;
       Found(states[k], tick).isLost && tick.alertSet && Overtaken(states[k].row, tick.snapshot.timestamp)
  }

  lemma FoundIsDated(s: MonitorState, tick: Tick)
    ensures Found(s, tick).isLost ==> Found(s, tick).lostSince.Some?
  {
  }

  lemma RowAt(states: seq<MonitorState>, events: seq<MonitorEvent>, emails: seq<Email>, k: nat)
    requires Stepped(states, events, emails, k)
    ensures events[k].NotLeader? ==> states[k + 1].row == states[k].row
    ensures events[k].LeaderTick? ==>
              var tick := events[k].tick;
              (states[k + 1].row, emails[k])
              == CheckRow(states[k].row, Found(states[k], tick), tick.alertSet, tick.snapshot.timestamp)
  {
  }

  lemma StepKeepsOrderExactly(states: seq<MonitorState>, events: seq<MonitorEvent>, emails: seq<Email>, k: nat)
    requires Stepped(states, events, emails, k) && Rising(states[k].row.reminders)
    ensures Rising(states[k + 1].row.reminders) <==> !OvertakenAt(states, events, k)
  {
    RowAt(states, events, emails, k);
    if events[k].LeaderTick? {
      var tick := events[k].tick;
      FoundIsDated(states[k], tick);
      CheckKeepsOrderExactly(states[k].row, Found(states[k], tick), tick.alertSet, tick.snapshot.timestamp);
    }
  }

  ghost predicate RisingThrough(states: seq<MonitorState>, k: nat) {
    forall j: nat | j <= k && j < |states| :: Rising(states[j].row.reminders)
  }

  ghost predicate NeverOvertaken(states: seq<MonitorState>, events: seq<MonitorEvent>, k: nat)
    requires k <= |events| && k <= |states|
  {
    forall j: nat | j < k :: !OvertakenAt(states, events, j)
  }

  /** Over any run, the reminders stay in order exactly when no tick that can write finds an overtaken window. */
  lemma {:induction false} OrderHoldsExactly(states: seq<MonitorState>, events: seq<MonitorEvent>, emails: seq<Email>,
                                             k: nat)
    requires IsMonitorRun(states, events, emails) && Rising(states[0].row.reminders) && k <= |events|
    ensures RisingThrough(states, k) <==> NeverOvertaken(states, events, k)
  {
    if k > 0 {
      OrderHoldsExactly(states, events, emails, k - 1);
      if RisingThrough(states, k - 1) {
        assert Rising(states[k - 1].row.reminders);
        assert Stepped(states, events, emails, k - 1);
        StepKeepsOrderExactly(states, events, emails, k - 1);
      }
    }
  }

  // ----- an order that holds: an address throughout -----

  /** Since the initial email, the reminders on record are those of the windows that were due at instant p. */
  ghost predicate CaughtUp(row: QuorumRow, p: Time) {
    row.emailSentAt.Some? ==>
      && row.emailSentAt.value <= p
      && forall w | w in REMINDER_WINDOWS :: WholeSeconds(w) in row.reminders <==> p - row.emailSentAt.value >= w
  }

  lemma DueUnlessRecorded(row: QuorumRow, now: Time, w: int)
    requires w in REMINDER_WINDOWS
    ensures ReminderDue(row.emailSentAt, ParseReminders(row.reminders), now, w) <==>
              row.emailSentAt.Some? && now - row.emailSentAt.value >= w && WholeSeconds(w) !in row.reminders
  {
    WindowsAreWhole(w);
    ParsedMembership(row.reminders, w);
  }

  lemma ThreeWindows(w: int)
    ensures w in REMINDER_WINDOWS <==> w == 1 * HOUR || w == 3 * HOUR || w == 6 * HOUR
    ensures WholeSeconds(1 * HOUR) == 3600 && WholeSeconds(3 * HOUR) == 10800 && WholeSeconds(6 * HOUR) == 21600
  {
    assert REMINDER_WINDOWS[0] == 1 * HOUR && REMINDER_WINDOWS[1] == 3 * HOUR && REMINDER_WINDOWS[2] == 6 * HOUR;
  }

  /** A row that was caught up at most two hours ago has no overtaken window: only one window is newly due. */
  lemma CaughtUpIsNotOvertaken(row: QuorumRow, p: Time, now: Time)
    requires WellFormed(row) && CaughtUp(row, p) && p <= now <= p + 2 * HOUR
    ensures !Overtaken(row, now)
  {
    forall w | w in REMINDER_WINDOWS && ReminderDue(row.emailSentAt, ParseReminders(row.reminders), now, w)
      ensures forall r | r in row.reminders :: r <= WholeSeconds(w)
    {
      DueUnlessRecorded(row, now, w);
      ThreeWindows(w);
      ThreeWindows(1 * HOUR);
      ThreeWindows(3 * HOUR);
      ThreeWindows(6 * HOUR);
      forall r | r in row.reminders ensures r <= WholeSeconds(w) {
        assert IsWindow(r);
      }
    }
  }

  /** A check that can write catches up. */
  lemma CheckCatchesUp(row: QuorumRow, state: QuorumState, p: Time, now: Time)
    requires WellFormed(row) && CaughtUp(row, p) && p <= now <= p + 2 * HOUR
    requires state.isLost ==> state.lostSince.Some?
    ensures CaughtUp(CheckRow(row, state, true, now).0, now)
  {
    var (next, email) := CheckRow(row, state, true, now);
    CheckRecords(row, state, true, now);
    ThreeWindows(1 * HOUR);
    ThreeWindows(3 * HOUR);
    ThreeWindows(6 * HOUR);
    forall w | w in REMINDER_WINDOWS && next.emailSentAt.Some?
      ensures WholeSeconds(w) in next.reminders <==> now - next.emailSentAt.value >= w
    {
      ThreeWindows(w);
      if state.isLost && row.emailSentAt.Some? {
        NothingLeftDue(row, state, p, now, w);
      }
    }
  }

  lemma NothingLeftDue(row: QuorumRow, state: QuorumState, p: Time, now: Time, w: int)
    requires WellFormed(row) && CaughtUp(row, p) && p <= now <= p + 2 * HOUR
    requires state.isLost && state.lostSince.Some? && row.emailSentAt.Some? && w in REMINDER_WINDOWS
    ensures var next := CheckRow(row, state, true, now).0;
            WholeSeconds(w) in next.reminders <==> now - row.emailSentAt.value >= w
  {
    var (next, email) := CheckRow(row, state, true, now);
    CheckRecords(row, state, true, now);
    ThreeWindows(w);
    DueUnlessRecorded(row, now, w);
    if ReminderDue(row.emailSentAt, ParseReminders(row.reminders), now, w) {
      OnlyNewWindow(row, p, now, w);
      ReminderIsLongestDue(state, row.emailSentAt, ParseReminders(row.reminders), now, w);
      CheckSends(row, state, true, now, w);
      assert WholeSeconds(w) in next.reminders;
    } else if email.Reminder? {
      CheckSends(row, state, true, now, email.window);
      ReminderIsLongestDue(state, row.emailSentAt, ParseReminders(row.reminders), now, email.window);
      ThreeWindows(email.window);
    }
  }

  /** Within two hours of having caught up, at most one window becomes due. */
  lemma OnlyNewWindow(row: QuorumRow, p: Time, now: Time, w: int)
    requires WellFormed(row) && CaughtUp(row, p) && p <= now <= p + 2 * HOUR && w in REMINDER_WINDOWS
    requires ReminderDue(row.emailSentAt, ParseReminders(row.reminders), now, w)
    ensures forall v | v in REMINDER_WINDOWS && v != w :: !ReminderDue(row.emailSentAt, ParseReminders(row.reminders), now, v)
  {
    DueUnlessRecorded(row, now, w);
    ThreeWindows(w);
    forall v | v in REMINDER_WINDOWS && v != w
      ensures !ReminderDue(row.emailSentAt, ParseReminders(row.reminders), now, v)
    {
      DueUnlessRecorded(row, now, v);
      ThreeWindows(v);
    }
  }

  /** Every tick is the leader's and has an address, and time does not go back. */
  ghost predicate SteadyTick(events: seq<MonitorEvent>, k: nat) {
    && k < |events| && events[k].LeaderTick? && events[k].tick.alertSet
    && (k > 0 && events[k - 1].LeaderTick? ==>
          events[k - 1].tick.snapshot.timestamp <= events[k].tick.snapshot.timestamp)
  }

  ghost predicate Past(history: seq<Snapshot>, p: Time) {
    forall s | s in history :: s.timestamp <= p
  }

  lemma StepHistoryIsPast(s: MonitorState, tick: Tick, p: Time)
    requires Past(s.history, p) && p <= tick.snapshot.timestamp
    ensures Past(LeaderStep(s, tick).0.history, tick.snapshot.timestamp)
  {
    TrimContents(s.history, tick.snapshot.timestamp - HISTORY_WINDOW);
  }

  lemma EmptyOrNot(snaps: seq<Snapshot>)
    ensures snaps == [] || exists s :: s in snaps
  {
    if snaps != [] {
      assert snaps[0] in snaps;
    }
  }

  /** A tick long after the last one has no history left, and finds no loss. */
  lemma FarTickFindsNothing(s: MonitorState, tick: Tick, p: Time)
    requires Past(s.history, p) && tick.snapshot.timestamp > p + 2 * HOUR
    ensures !Found(s, tick).isLost
  {
    var cutoff := tick.snapshot.timestamp - HISTORY_WINDOW;
    TrimContents(s.history, cutoff);
    EmptyOrNot(Trim(s.history, cutoff));
    assert LatestFirst(Earlier([], tick.snapshot.timestamp)) == [];
  }

  /** What is known of a steady run before tick k, p being the instant of the tick before. */
  ghost predicate Followed(s: MonitorState, p: Time) {
    WellFormed(s.row) && CaughtUp(s.row, p) && Past(s.history, p)
  }

  lemma TickFollows(s: MonitorState, tick: Tick, p: Time)
    requires Followed(s, p) && p <= tick.snapshot.timestamp && tick.alertSet
    ensures Followed(LeaderStep(s, tick).0, tick.snapshot.timestamp)
    ensures !(Found(s, tick).isLost && Overtaken(s.row, tick.snapshot.timestamp))
  {
    var now := tick.snapshot.timestamp;
    FoundIsDated(s, tick);
    StepHistoryIsPast(s, tick, p);
    CheckKeepsWellFormed(s.row, Found(s, tick), true, now);
    if now <= p + 2 * HOUR {
      CheckCatchesUp(s.row, Found(s, tick), p, now);
      CaughtUpIsNotOvertaken(s.row, p, now);
    } else {
      FarTickFindsNothing(s, tick, p);
    }
    assert LeaderStep(s, tick).0.row == CheckRow(s.row, Found(s, tick), true, now).0;
  }

  ghost predicate IsSteadyRun(states: seq<MonitorState>, events: seq<MonitorEvent>, emails: seq<Email>) {
    && IsMonitorRun(states, events, emails)
    && states[0] == MonitorState([], CLEAR_ROW)
    && forall j: nat | j < |events| :: SteadyTick(events, j)
  }

  lemma {:induction false} SteadyRunIsFollowed(states: seq<MonitorState>, events: seq<MonitorEvent>, emails: seq<Email>,
                                               k: nat)
    requires IsSteadyRun(states, events, emails) && k < |events|
    ensures events[k].LeaderTick? && Followed(states[k + 1], events[k].tick.snapshot.timestamp)
    ensures !OvertakenAt(states, events, k)
  {
    assert SteadyTick(events, k) && Stepped(states, events, emails, k);
    if k == 0 {
      TickFollows(states[0], events[0].tick, events[0].tick.snapshot.timestamp);
    } else {
      SteadyRunIsFollowed(states, events, emails, k - 1);
      TickFollows(states[k], events[k].tick, events[k - 1].tick.snapshot.timestamp);
    }
  }

  /** With an alert address throughout a term, the reminders of every incident go out in order, however far apart the
      ticks are. */
  lemma SteadyRunKeepsOrder(states: seq<MonitorState>, events: seq<MonitorEvent>, emails: seq<Email>, k: nat)
    requires IsSteadyRun(states, events, emails) && k <= |events|
    ensures RisingThrough(states, k)
  {
    forall j: nat | j < k ensures !OvertakenAt(states, events, j) {
      SteadyRunIsFollowed(states, events, emails, j);
    }
    OrderHoldsExactly(states, events, emails, k);
  }

  // ----- a run that breaks the order -----

  /** A loss looked at every four minutes; the address is missing from the initial email until three hours after it. */
  function LostAt(k: nat): Snapshot { Snapshot(false, true, 4 * MINUTE * k) }

  function LossEvent(k: nat): MonitorEvent { LeaderTick(Tick(LostAt(k), k == 1 || k >= 46)) }

  function LossRow(k: nat): QuorumRow {
    if k <= 1 then CLEAR_ROW
    else QuorumRow(Some(0), Some(4 * MINUTE), if k <= 46 then [] else if k == 47 then [10800] else [10800, 3600])
  }

  function LossState(k: nat): MonitorState {
    MonitorState(if k == 0 then [] else if k == 1 then [LostAt(0)] else [LostAt(k - 2), LostAt(k - 1)], LossRow(k))
  }

  function LossEmail(k: nat): Email {
    if k == 1 then Initial else if k == 46 then Reminder(3 * HOUR) else if k == 47 then Reminder(1 * HOUR) else NoEmail
  }

  lemma LossTrim(k: nat)
    ensures Trim(LossState(k).history, LostAt(k).timestamp - HISTORY_WINDOW) == if k == 0 then [] else [LostAt(k - 1)]
  {
    var h := LossState(k).history;
    if k >= 1 {
      var last := LostAt(k - 1);
      assert h[..|h| - 1] == if k == 1 then [] else [LostAt(k - 2)];
      if k >= 2 {
        assert [LostAt(k - 2)][..0] == [];
        assert Trim([LostAt(k - 2)], LostAt(k).timestamp - HISTORY_WINDOW) == [];
      }
    }
  }

  lemma LossFound(k: nat)
    ensures Found(LossState(k), Tick(LostAt(k), k == 1 || k >= 46))
            == if k == 0 then QuorumState(false, None) else QuorumState(true, Some(4 * MINUTE * (k - 1)))
  {
    LossTrim(k);
    var now := LostAt(k).timestamp;
    if k == 0 {
      assert LatestFirst(Earlier([], now)) == [];
    } else {
      var x := LostAt(k - 1);
      assert [x][1..] == [];
      assert Earlier([x], now) == [x] && LatestFirst([x]) == [x];
      assert WalkBack([x][1..], x.timestamp) == x.timestamp;
      assert WalkBack([x], now) == x.timestamp;
    }
  }

  lemma LossCheck(k: nat)
    requires k <= 47
    ensures CheckRow(LossRow(k), if k == 0 then QuorumState(false, None) else QuorumState(true, Some(4 * MINUTE * (k - 1))),
                     k == 1 || k >= 46, LostAt(k).timestamp)
            == (LossRow(k + 1), LossEmail(k))
  {
    if k >= 46 {
      var row, now := LossRow(k), LostAt(k).timestamp;
      var window := if k == 46 then 3 * HOUR else 1 * HOUR;
      var state := QuorumState(true, Some(4 * MINUTE * (k - 1)));
      ThreeWindows(window);
      forall w | w in REMINDER_WINDOWS && w >= window
        ensures ReminderDue(row.emailSentAt, ParseReminders(row.reminders), now, w) <==> w == window
      {
        ThreeWindows(w);
        DueUnlessRecorded(row, now, w);
      }
      ReminderIsLongestDue(state, row.emailSentAt, ParseReminders(row.reminders), now, window);
      DumpAppended(row.reminders, window);
      assert ShouldSendReminder(state, row.emailSentAt, ParseReminders(row.reminders), now) == Some(window);
      assert row.reminders + [WholeSeconds(window)] == LossRow(k + 1).reminders;
    }
  }

  lemma LossStep(k: nat)
    requires k <= 47
    ensures MonitorStep(LossState(k), LossEvent(k)) == (LossState(k + 1), LossEmail(k))
  {
    LossTrim(k);
    LossFound(k);
    LossCheck(k);
    assert Trim(LossState(k).history, LostAt(k).timestamp - HISTORY_WINDOW) + [LostAt(k)] == LossState(k + 1).history;
    assert LeaderStep(LossState(k), LossEvent(k).tick) == (LossState(k + 1), LossEmail(k));
  }

  /** A run from a clear row, within one incident, in which the one-hour reminder goes out after the three-hour one: the
      alert address was missing in between. */
  lemma ShorterReminderCanFollowLonger()
      returns (states: seq<MonitorState>, events: seq<MonitorEvent>, emails: seq<Email>)
    ensures IsMonitorRun(states, events, emails) && |events| == 48
    ensures states[0].row == CLEAR_ROW && OngoingBetween(states, 2, 48)
    ensures emails[1] == Initial && emails[46] == Reminder(3 * HOUR) && emails[47] == Reminder(1 * HOUR)
    ensures OvertakenAt(states, events, 47) && !Rising(states[48].row.reminders)
  {
    states := seq(49, k requires 0 <= k < 49 => LossState(k));
    events := seq(48, k requires 0 <= k < 48 => LossEvent(k));
    emails := seq(48, k requires 0 <= k < 48 => LossEmail(k));
    forall k: nat | k < 48 ensures Stepped(states, events, emails, k) {
      LossStep(k);
    }
    assert states[48].row.reminders[0] > states[48].row.reminders[1];
    assert Stepped(states, events, emails, 47) && Rising(states[47].row.reminders);
    StepKeepsOrderExactly(states, events, emails, 47);
  }
}
