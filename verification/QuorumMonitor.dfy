/** The leader's quorum loop: the five-minute history kept in memory, the incident row kept in the database, and the
    emails sent. Non-leaders keep no history, so one history with a NotLeader step stands for every node in turn. */
module QuorumMonitor {
  import opened Basics
  import opened QuorumDetection

  const HISTORY_WINDOW: int := QUORUM_LOSS_THRESHOLD + 2 * MINUTE

  /** reminders holds whole seconds, as the row's JSON list does. */
  datatype QuorumRow = QuorumRow(lostSince: Option<Time>, emailSentAt: Option<Time>, reminders: seq<int>)

  const CLEAR_ROW := QuorumRow(None, None, [])

  datatype Email = NoEmail | Initial | Reminder(window: int)

  // ----- reminders stored as whole seconds -----

  /** int(td.total_seconds()): truncates toward zero. */
  function WholeSeconds(d: int): int { if d >= 0 then d / SECOND else -((-d) / SECOND) }

  function DumpReminders(reminders: seq<int>): seq<int> {
    seq(|reminders|, i requires 0 <= i < |reminders| => WholeSeconds(reminders[i]))
  }

  function ParseReminders(raw: seq<int>): seq<int> {
    seq(|raw|, i requires 0 <= i < |raw| => raw[i] * SECOND)
  }

  predicate WholeSecond(d: int) { d % SECOND == 0 }

  /** Storing and reading back returns the same list exactly when every entry is a whole number of seconds. */
  lemma RemindersRoundTrip(reminders: seq<int>)
    ensures ParseReminders(DumpReminders(reminders)) == reminders <==> forall d | d in reminders :: WholeSecond(d)
    ensures DumpReminders(ParseReminders(reminders)) == reminders
  {
    var back := ParseReminders(DumpReminders(reminders));
    forall i | 0 <= i < |reminders| ensures back[i] == reminders[i] <==> WholeSecond(reminders[i]) {
      WholeSecondsExact(reminders[i]);
    }
    if forall d | d in reminders :: WholeSecond(d) {
      forall i | 0 <= i < |reminders| ensures back[i] == reminders[i] {
        assert reminders[i] in reminders;
      }
    } else {
      var d :| d in reminders && !WholeSecond(d);
      var i :| 0 <= i < |reminders| && reminders[i] == d;
      assert back[i] != reminders[i];
    }
    forall i | 0 <= i < |reminders| ensures DumpReminders(ParseReminders(reminders))[i] == reminders[i] {
      WholeSecondsOfProduct(reminders[i]);
    }
  }

  lemma WholeSecondsExact(d: int)
    ensures WholeSeconds(d) * SECOND == d <==> WholeSecond(d)
  {
    if d < 0 {
      assert (-d) % SECOND == 0 <==> d % SECOND == 0;
    }
  }

  lemma WholeSecondsOfProduct(s: int)
    ensures WholeSeconds(s * SECOND) == s
  {
  }

  // ----- one check -----

  function CheckRow(row: QuorumRow, state: QuorumState, alertSet: bool, now: Time): (QuorumRow, Email) {
    if !state.isLost && row.lostSince.Some? then (CLEAR_ROW, NoEmail)
    else if !state.isLost then (row, NoEmail)
    else
      var traced := if row.lostSince.None? then row.(lostSince := state.lostSince) else row;
      if !alertSet then (traced, NoEmail)
      else if ShouldSendInitialEmail(state, traced.emailSentAt) then (traced.(emailSentAt := Some(now)), Initial)
      else
        var reminders := ParseReminders(traced.reminders);
        match ShouldSendReminder(state, traced.emailSentAt, reminders, now)
        case Some(window) => (traced.(reminders := DumpReminders(reminders + [window])), Reminder(window))
        case None => (traced, NoEmail)
  }

  function Trim(history: seq<Snapshot>, cutoff: Time): seq<Snapshot> {
    if history == [] then []
    else Trim(history[..|history| - 1], cutoff)
         + if history[|history| - 1].timestamp >= cutoff then [history[|history| - 1]] else []
  }

  lemma {:induction false} TrimContents(history: seq<Snapshot>, cutoff: Time)
    ensures forall s :: s in Trim(history, cutoff) <==> s in history && s.timestamp >= cutoff
  {
    if history != [] {
      var init := history[..|history| - 1];
      TrimContents(init, cutoff);
      assert history == init + [history[|history| - 1]];
    }
  }

  class QuorumMonitor {
    var history: seq<Snapshot>
    var row: QuorumRow

    constructor (stored: QuorumRow)
      ensures history == [] && row == stored
    {
      history := [];
      row := stored;
    }

    method RunQuorumCheck(snapshot: Snapshot, earlier: seq<Snapshot>, alertSet: bool, now: Time) returns (email: Email)
      modifies this`row
      ensures (row, email) == CheckRow(old(row), Evaluate(snapshot, earlier), alertSet, now)
    {
      email := NoEmail;
      var state := EvaluateQuorumLoss(snapshot, earlier);
      if !state.isLost && row.lostSince != None {
        row := row.(lostSince := None);
        row := row.(emailSentAt := None);
        row := row.(reminders := []);
        return;
      }
      if !state.isLost {
        return;
      }
      if row.lostSince == None {
        row := row.(lostSince := state.lostSince);
      }
      if !alertSet {
        return;
      }
      if ShouldSendInitialEmail(state, row.emailSentAt) {
        email := Initial;
        row := row.(emailSentAt := Some(now));
        return;
      }
      var reminders := ParseReminders(row.reminders);
      var window := ShouldSendReminder(state, row.emailSentAt, reminders, now);
      if window != None {
        email := Reminder(window.value);
        reminders := reminders + [window.value];
        row := row.(reminders := DumpReminders(reminders));
      }
    }

    method OneTick(event: MonitorEvent) returns (email: Email)
      modifies this
      ensures (MonitorState(history, row), email) == MonitorStep(old(MonitorState(history, row)), event)
    {
      if event.NotLeader? {
        history := [];
        return NoEmail;
      }
      var now := event.tick.snapshot.timestamp;
      var kept := Trim(history, now - HISTORY_WINDOW);
      history := kept + [event.tick.snapshot];
      assert history[..|history| - 1] == kept;
      email := RunQuorumCheck(event.tick.snapshot, history[..|history| - 1], event.tick.alertSet, now);
    }
  }

  // ----- runs -----

  datatype MonitorEvent = NotLeader | LeaderTick(tick: Tick)

  /** One tick of the leader: the snapshot it takes, stamped now, and whether an alert address is configured. */
  datatype Tick = Tick(snapshot: Snapshot, alertSet: bool)

  datatype MonitorState = MonitorState(history: seq<Snapshot>, row: QuorumRow)

  function MonitorStep(s: MonitorState, event: MonitorEvent): (MonitorState, Email) {
    match event
    case NotLeader => (MonitorState([], s.row), NoEmail)
    case LeaderTick(tick) => LeaderStep(s, tick)
  }

  function LeaderStep(s: MonitorState, tick: Tick): (MonitorState, Email) {
    var earlier := Trim(s.history, tick.snapshot.timestamp - HISTORY_WINDOW);
    var checked := CheckRow(s.row, Evaluate(tick.snapshot, earlier), tick.alertSet, tick.snapshot.timestamp);
    (MonitorState(earlier + [tick.snapshot], checked.0), checked.1)
  }

  // ----- one leader term: the window against the whole history -----

  ghost predicate Ticked(states: seq<MonitorState>, ticks: seq<Tick>, k: nat) {
    k < |ticks| && |states| == |ticks| + 1 && states[k + 1] == LeaderStep(states[k], ticks[k]).0
  }

  /** A term: no history at first, whatever row the database holds, then one step per tick. */
  ghost predicate IsTerm(states: seq<MonitorState>, ticks: seq<Tick>) {
    && |states| == |ticks| + 1
    && states[0].history == []
    && forall k: nat | k < |ticks| :: Ticked(states, ticks, k)
  }

  /** The snapshots seen up to and including tick k. */
  function Seen(ticks: seq<Tick>, k: nat): (r: seq<Snapshot>)
    requires k < |ticks|
    ensures |r| == k + 1
  {
    seq(k + 1, i requires 0 <= i <= k => ticks[i].snapshot)
  }

  /** What tick k evaluates on. */
  function Window(states: seq<MonitorState>, ticks: seq<Tick>, k: nat): seq<Snapshot>
    requires k < |ticks| && k < |states|
  {
    Trim(states[k].history, ticks[k].snapshot.timestamp - HISTORY_WINDOW)
  }

  lemma SeenTick(ticks: seq<Tick>, k: nat)
    requires k < |ticks|
    ensures Last(Seen(ticks, k)) == ticks[k].snapshot
    ensures k == 0 ==> Before(Seen(ticks, k)) == []
    ensures k > 0 ==> Before(Seen(ticks, k)) == Seen(ticks, k - 1)
  {
  }

  lemma SeenAppends(ticks: seq<Tick>, k: nat)
    requires k < |ticks|
    ensures Seen(ticks, k) == Before(Seen(ticks, k)) + [ticks[k].snapshot]
  {
  }

  lemma TermTick(states: seq<MonitorState>, ticks: seq<Tick>, k: nat)
    requires Ticked(states, ticks, k)
    ensures states[k + 1].history == Window(states, ticks, k) + [ticks[k].snapshot]
    ensures states[k + 1].row == CheckRow(states[k].row, Evaluate(ticks[k].snapshot, Window(states, ticks, k)),
                                          ticks[k].alertSet, ticks[k].snapshot.timestamp).0
  {
  }

  ghost predicate Increasing(seen: seq<Snapshot>) {
    forall i, j | 0 <= i < j < |seen| :: seen[i].timestamp < seen[j].timestamp
  }

  ghost predicate Spaced(seen: seq<Snapshot>, gap: int) {
    forall i, j | 0 <= i && j == i + 1 && j < |seen| :: seen[j].timestamp <= seen[i].timestamp + gap
  }

  function Last(seen: seq<Snapshot>): Snapshot
    requires seen != []
  {
    seen[|seen| - 1]
  }

  function Before(seen: seq<Snapshot>): seq<Snapshot>
    requires seen != []
  {
    seen[..|seen| - 1]
  }

  lemma IncreasingBefore(seen: seq<Snapshot>)
    requires Increasing(seen) && seen != []
    ensures Increasing(Before(seen))
    ensures forall s | s in Before(seen) :: s.timestamp < Last(seen).timestamp
  {
    var b := Before(seen);
    assert forall i | 0 <= i < |b| :: b[i] == seen[i];
    forall s | s in b ensures s.timestamp < Last(seen).timestamp {
      var i :| 0 <= i < |b| && b[i] == s;
    }
  }

  lemma {:induction false} TrimKeepsOrder(history: seq<Snapshot>, cutoff: Time)
    requires Increasing(history)
    ensures Increasing(Trim(history, cutoff))
  {
    if history != [] {
      IncreasingBefore(history);
      TrimKeepsOrder(Before(history), cutoff);
      TrimContents(Before(history), cutoff);
      var t := Trim(Before(history), cutoff);
      forall i | 0 <= i < |t| ensures t[i].timestamp < Last(history).timestamp {
        assert t[i] in t;
      }
    }
  }

  /** Where the unhealthy run that ends the list begins. */
  function RunStart(seen: seq<Snapshot>): (i: nat)
    requires seen != []
    ensures i < |seen|
    ensures i > 0 ==> !Unhealthy(seen[i - 1])
    ensures forall k | i <= k < |seen| - 1 :: Unhealthy(seen[k])
  {
    if |seen| == 1 || !Unhealthy(seen[|seen| - 2]) then |seen| - 1 else RunStart(seen[..|seen| - 1])
  }

  /** The first snapshot at or after the cutoff. */
  function FirstKept(seen: seq<Snapshot>, cutoff: Time): (i: nat)
    requires Increasing(seen)
    ensures i <= |seen|
    ensures forall k | 0 <= k < |seen| :: seen[k].timestamp >= cutoff <==> k >= i
  {
    if seen == [] || Last(seen).timestamp < cutoff then |seen|
    else
      IncreasingBefore(seen);
      var i := FirstKept(Before(seen), cutoff);
      assert forall k | 0 <= k < |seen| - 1 :: seen[k] == Before(seen)[k];
      i
  }

  ghost predicate KeptSince(seen: seq<Snapshot>, kept: seq<Snapshot>, cutoff: Time)
    requires seen != []
  {
    forall s :: s in kept <==> s in Before(seen) && s.timestamp >= cutoff
  }

  lemma PlaceOf(seen: seq<Snapshot>, s: Snapshot) returns (k: nat)
    requires seen != [] && s in Before(seen)
    ensures k < |seen| - 1 && seen[k] == s
  {
    k :| 0 <= k < |seen| - 1 && Before(seen)[k] == s;
  }

  /** Judged on the snapshots since the cutoff, the run starts at its true start or at the first snapshot kept. */
  lemma WindowRunStart(seen: seq<Snapshot>, kept: seq<Snapshot>, cutoff: Time, m: nat)
    requires Increasing(seen) && seen != [] && KeptSince(seen, kept, cutoff)
    requires m == Max(RunStart(seen), FirstKept(seen, cutoff)) && m < |seen|
    ensures IsRunStart(Last(seen), kept, seen[m].timestamp)
  {
    if m < |seen| - 1 {
      assert Before(seen)[m] == seen[m];
      assert seen[m] in kept;
    }
    forall s | s in kept && seen[m].timestamp <= s.timestamp < Last(seen).timestamp ensures Unhealthy(s) {
      var k := PlaceOf(seen, s);
      assert k >= m;
    }
    forall s | s in kept && s.timestamp < seen[m].timestamp && Unhealthy(s) ensures Broken(kept, s.timestamp, seen[m].timestamp) {
      WindowCutByHealthy(seen, kept, cutoff, m, s);
    }
  }

  lemma WindowCutByHealthy(seen: seq<Snapshot>, kept: seq<Snapshot>, cutoff: Time, m: nat, s: Snapshot)
    requires Increasing(seen) && seen != [] && KeptSince(seen, kept, cutoff)
    requires m == Max(RunStart(seen), FirstKept(seen, cutoff)) && m < |seen|
    requires s in kept && s.timestamp < seen[m].timestamp && Unhealthy(s)
    ensures Broken(kept, s.timestamp, seen[m].timestamp)
  {
    var k := PlaceOf(seen, s);
    CutPlace(seen, cutoff, m, k);
    CutAt(seen, kept, cutoff, s, m - 1, seen[m].timestamp);
  }

  /** A snapshot kept before the place where the run is seen to start has a healthy one behind it. */
  lemma CutPlace(seen: seq<Snapshot>, cutoff: Time, m: nat, k: nat)
    requires seen != [] && Increasing(seen) && k < |seen| && m < |seen|
    requires m == Max(RunStart(seen), FirstKept(seen, cutoff))
    requires seen[k].timestamp < seen[m].timestamp && seen[k].timestamp >= cutoff && Unhealthy(seen[k])
    ensures k < m - 1 && !Unhealthy(seen[m - 1]) && seen[m - 1].timestamp >= cutoff
    ensures seen[k].timestamp < seen[m - 1].timestamp
  {
    assert k >= FirstKept(seen, cutoff);
    assert k < m;
  }

  lemma CutAt(seen: seq<Snapshot>, kept: seq<Snapshot>, cutoff: Time, s: Snapshot, h: nat, until: Time)
    requires h < |seen| - 1 && KeptSince(seen, kept, cutoff) && !Unhealthy(seen[h]) && seen[h].timestamp >= cutoff
    requires s.timestamp < seen[h].timestamp < until
    ensures Broken(kept, s.timestamp, until)
  {
    assert Before(seen)[h] == seen[h];
    assert seen[h] in kept;
  }

  /** What one evaluation answers, on the snapshots at or after any cutoff. */
  lemma EvaluateKept(seen: seq<Snapshot>, kept: seq<Snapshot>, cutoff: Time)
    requires Increasing(seen) && seen != [] && cutoff <= Last(seen).timestamp
    requires KeptSince(seen, kept, cutoff)
    ensures FirstKept(seen, cutoff) < |seen|
    ensures var start := seen[Max(RunStart(seen), FirstKept(seen, cutoff))].timestamp;
            Evaluate(Last(seen), kept) ==
            if Unhealthy(Last(seen)) && Last(seen).timestamp - start > QUORUM_LOSS_THRESHOLD
            then QuorumState(true, Some(start)) else QuorumState(false, None)
  {
    assert FirstKept(seen, cutoff) <= |seen| - 1 by {
      assert seen[|seen| - 1].timestamp >= cutoff;
    }
    WindowRunStart(seen, kept, cutoff, Max(RunStart(seen), FirstKept(seen, cutoff)));
    if Unhealthy(Last(seen)) {
      EvaluationIsContinuousLoss(Last(seen), kept, seen[Max(RunStart(seen), FirstKept(seen, cutoff))].timestamp);
    }
  }

  /** On everything seen, the answer is the true start of the run. */
  lemma EvaluateAll(seen: seq<Snapshot>)
    requires Increasing(seen) && seen != []
    ensures var start := seen[RunStart(seen)].timestamp;
            Evaluate(Last(seen), Before(seen)) ==
            if Unhealthy(Last(seen)) && Last(seen).timestamp - start > QUORUM_LOSS_THRESHOLD
            then QuorumState(true, Some(start)) else QuorumState(false, None)
  {
    IncreasingBefore(seen);
    forall s | s in Before(seen) ensures s.timestamp >= seen[0].timestamp {
      var k :| 0 <= k < |seen| - 1 && seen[k] == s;
    }
    assert FirstKept(seen, seen[0].timestamp) == 0 by {
      assert seen[0].timestamp >= seen[0].timestamp;
    }
    EvaluateKept(seen, Before(seen), seen[0].timestamp);
  }

  ghost predicate Paced(ticks: seq<Tick>, gap: int) {
    forall k: nat | k < |ticks| :: PacedAt(ticks, gap, k)
  }

  ghost predicate PacedAt(ticks: seq<Tick>, gap: int, k: nat)
    requires k < |ticks|
  {
    Increasing(Seen(ticks, k)) && Spaced(Seen(ticks, k), gap)
  }

  lemma AppendIncreasing(kept: seq<Snapshot>, last: Snapshot)
    requires Increasing(kept) && forall s | s in kept :: s.timestamp < last.timestamp
    ensures Increasing(kept + [last])
  {
    forall i | 0 <= i < |kept| ensures kept[i].timestamp < last.timestamp {
      assert kept[i] in kept;
    }
  }

  ghost predicate HistoryKept(history: seq<Snapshot>, seen: seq<Snapshot>)
    requires seen != []
  {
    && Increasing(history)
    && forall s :: s in history <==> s in seen && s.timestamp >= Last(seen).timestamp - 5 * MINUTE
  }

  /** The history kept in memory after tick k is exactly what was seen in the last five minutes. */
  lemma {:induction false} TermHistory(states: seq<MonitorState>, ticks: seq<Tick>, gap: int, k: nat)
    requires IsTerm(states, ticks) && Paced(ticks, gap) && k < |ticks|
    ensures HistoryKept(states[k + 1].history, Seen(ticks, k))
    decreases k, 1
  {
    assert Ticked(states, ticks, k) && PacedAt(ticks, gap, k);
    TermTick(states, ticks, k);
    WindowContents(states, ticks, gap, k);
    var seen, kept := Seen(ticks, k), Window(states, ticks, k);
    SeenTick(ticks, k);
    SeenAppends(ticks, k);
    IncreasingBefore(seen);
    AppendIncreasing(kept, Last(seen));
    assert Last(seen) in [Last(seen)];
  }

  lemma {:induction false} WindowContents(states: seq<MonitorState>, ticks: seq<Tick>, gap: int, k: nat)
    requires IsTerm(states, ticks) && Paced(ticks, gap) && k < |ticks|
    ensures Increasing(Window(states, ticks, k))
    ensures KeptSince(Seen(ticks, k), Window(states, ticks, k), ticks[k].snapshot.timestamp - HISTORY_WINDOW)
    decreases k, 0
  {
    var cutoff := ticks[k].snapshot.timestamp - HISTORY_WINDOW;
    assert PacedAt(ticks, gap, k);
    SeenTick(ticks, k);
    IncreasingBefore(Seen(ticks, k));
    if k > 0 {
      TermHistory(states, ticks, gap, k - 1);
      assert Seen(ticks, k - 1)[k - 1] in Before(Seen(ticks, k));
    }
    TrimKeepsOrder(states[k].history, cutoff);
    TrimContents(states[k].history, cutoff);
  }

  /** With ticks at most two minutes apart, five minutes of history answer like the whole history of the term. */
  lemma WindowAnswersLikeHistory(states: seq<MonitorState>, ticks: seq<Tick>, k: nat)
    requires IsTerm(states, ticks) && Paced(ticks, 2 * MINUTE) && k < |ticks|
    ensures Evaluate(ticks[k].snapshot, Window(states, ticks, k)).isLost
            == Evaluate(ticks[k].snapshot, Before(Seen(ticks, k))).isLost
  {
    var seen := Seen(ticks, k);
    var cutoff := ticks[k].snapshot.timestamp - HISTORY_WINDOW;
    assert PacedAt(ticks, 2 * MINUTE, k);
    SeenTick(ticks, k);
    WindowContents(states, ticks, 2 * MINUTE, k);
    EvaluateKept(seen, Window(states, ticks, k), cutoff);
    EvaluateAll(seen);
    var w := FirstKept(seen, cutoff);
    if RunStart(seen) < w {
      // The first snapshot kept follows one older than five minutes, so it is itself older than three.
      assert seen[w - 1].timestamp < cutoff && seen[w].timestamp <= seen[w - 1].timestamp + 2 * MINUTE;
      assert seen[RunStart(seen)].timestamp <= seen[w - 1].timestamp;
    }
  }

  /** Two minutes is the most the window allows: with any longer gap a lasting loss can go unseen. */
  lemma LongerGapsHideALoss(gap: int) returns (ticks: seq<Tick>)
    requires gap > 2 * MINUTE
    ensures |ticks| == 4 && Paced(ticks, gap)
    ensures Evaluate(ticks[3].snapshot, Before(Seen(ticks, 3))).isLost
    ensures forall states | IsTerm(states, ticks) :: !Evaluate(ticks[3].snapshot, Window(states, ticks, 3)).isLost
  {
    ticks := [LostTick(0), LostTick(gap), LostTick(gap + 2 * MINUTE), LostTick(gap + 3 * MINUTE)];
    var seen := Seen(ticks, 3);
    assert seen == [LostTick(0).snapshot, LostTick(gap).snapshot, LostTick(gap + 2 * MINUTE).snapshot,
                    LostTick(gap + 3 * MINUTE).snapshot];
    forall k: nat | k < 4 ensures PacedAt(ticks, gap, k) {
      assert Seen(ticks, k) == seen[..k + 1];
    }
    EvaluateAll(seen);
    forall states | IsTerm(states, ticks) ensures !Evaluate(ticks[3].snapshot, Window(states, ticks, 3)).isLost {
      WindowContents(states, ticks, gap, 3);
      EvaluateKept(seen, Window(states, ticks, 3), ticks[3].snapshot.timestamp - HISTORY_WINDOW);
    }
  }

  function LostTick(now: Time): Tick { Tick(Snapshot(false, true, now), true) }

  /** One check leaves the start it found, unless one is recorded already. */
  lemma StartAfterCheck(row: QuorumRow, found: QuorumState, alertSet: bool, now: Time)
    ensures CheckRow(row, found, alertSet, now).0.lostSince
            == if !found.isLost then None else if row.lostSince.Some? then row.lostSince else found.lostSince
  {
    if found.isLost {
      var traced := if row.lostSince.None? then row.(lostSince := found.lostSince) else row;
      assert CheckRow(row, found, alertSet, now).0.lostSince == traced.lostSince;
    }
  }

  /** What the window finds in a run whose start it still holds. */
  lemma WindowFinds(states: seq<MonitorState>, ticks: seq<Tick>, k: nat)
    requires IsTerm(states, ticks) && Paced(ticks, 2 * MINUTE) && k < |ticks| && PacedAt(ticks, 2 * MINUTE, k)
    requires RunStart(Seen(ticks, k)) >= FirstKept(Seen(ticks, k), ticks[k].snapshot.timestamp - HISTORY_WINDOW)
    ensures Evaluate(ticks[k].snapshot, Window(states, ticks, k)) == Evaluate(ticks[k].snapshot, Before(Seen(ticks, k)))
  {
    SeenTick(ticks, k);
    WindowContents(states, ticks, 2 * MINUTE, k);
    EvaluateKept(Seen(ticks, k), Window(states, ticks, k), ticks[k].snapshot.timestamp - HISTORY_WINDOW);
    EvaluateAll(Seen(ticks, k));
  }

  lemma StartAfterTick(states: seq<MonitorState>, ticks: seq<Tick>, k: nat)
    requires Ticked(states, ticks, k)
    ensures var found := Evaluate(ticks[k].snapshot, Window(states, ticks, k));
            states[k + 1].row.lostSince
            == if !found.isLost then None
               else if states[k].row.lostSince.Some? then states[k].row.lostSince else found.lostSince
  {
    TermTick(states, ticks, k);
    StartAfterCheck(states[k].row, Evaluate(ticks[k].snapshot, Window(states, ticks, k)),
                    ticks[k].alertSet, ticks[k].snapshot.timestamp);
  }

  /** While a loss goes on, the start already reported is still the true one; one not reported yet is in the window. */
  lemma LossReportedBefore(seen: seq<Snapshot>)
    requires Increasing(seen) && Spaced(seen, 2 * MINUTE) && |seen| >= 2
    requires Evaluate(Last(seen), Before(seen)).isLost
    ensures var earlier := Before(seen);
            var before := Evaluate(Last(earlier), Before(earlier));
            && (before.isLost ==> before.lostSince == Evaluate(Last(seen), Before(seen)).lostSince)
            && (!before.isLost ==> RunStart(seen) >= FirstKept(seen, Last(seen).timestamp - HISTORY_WINDOW))
  {
    IncreasingBefore(seen);
    EvaluateAll(seen);
    EvaluateAll(Before(seen));
    LossGoesOn(seen);
    assert Before(seen)[RunStart(seen)] == seen[RunStart(seen)];
  }

  lemma StartGoesOn(states: seq<MonitorState>, ticks: seq<Tick>, k: nat)
    requires IsTerm(states, ticks) && Paced(ticks, 2 * MINUTE) && 0 < k < |ticks|
    requires Evaluate(ticks[k].snapshot, Before(Seen(ticks, k))).isLost
    ensures var before, now := Evaluate(ticks[k - 1].snapshot, Before(Seen(ticks, k - 1))),
                               Evaluate(ticks[k].snapshot, Before(Seen(ticks, k)));
            if before.isLost then before.lostSince == now.lostSince
            else Evaluate(ticks[k].snapshot, Window(states, ticks, k)) == now
  {
    assert PacedAt(ticks, 2 * MINUTE, k);
    SeenTick(ticks, k);
    SeenTick(ticks, k - 1);
    LossReportedBefore(Seen(ticks, k));
    if !Evaluate(ticks[k - 1].snapshot, Before(Seen(ticks, k - 1))).isLost {
      WindowFinds(states, ticks, k);
    }
  }

  /** A single snapshot is no loss. */
  lemma NoLossAtFirst(ticks: seq<Tick>)
    requires ticks != []
    ensures !Evaluate(ticks[0].snapshot, Before(Seen(ticks, 0))).isLost
  {
    SeenTick(ticks, 0);
    EvaluateAll(Seen(ticks, 0));
  }

  lemma UnlostHasNoStart(snapshot: Snapshot, history: seq<Snapshot>)
    ensures Evaluate(snapshot, history).isLost <==> Evaluate(snapshot, history).lostSince.Some?
  {
  }

  /** Through a whole term, whatever row it inherits, the row records the true start of the loss in progress and
      nothing when there is none. */
  lemma {:induction false} RecordedStartIsTrue(states: seq<MonitorState>, ticks: seq<Tick>, k: nat)
    requires IsTerm(states, ticks) && Paced(ticks, 2 * MINUTE) && k < |ticks|
    ensures states[k + 1].row.lostSince == Evaluate(ticks[k].snapshot, Before(Seen(ticks, k))).lostSince
    decreases k
  {
    assert Ticked(states, ticks, k);
    WindowAnswersLikeHistory(states, ticks, k);
    StartAfterTick(states, ticks, k);
    UnlostHasNoStart(ticks[k].snapshot, Before(Seen(ticks, k)));
    if Evaluate(ticks[k].snapshot, Before(Seen(ticks, k))).isLost {
      NoLossAtFirst(ticks);
      RecordedStartIsTrue(states, ticks, k - 1);
      StartGoesOn(states, ticks, k);
      UnlostHasNoStart(ticks[k - 1].snapshot, Before(Seen(ticks, k - 1)));
    }
  }

  /** Every term opens by clearing the row: whatever incident it inherits, the first tick has no history, finds no
      loss, and resets it. */
  lemma FirstTickForgetsTheIncident(states: seq<MonitorState>, ticks: seq<Tick>)
    requires IsTerm(states, ticks) && ticks != []
    ensures states[1].row == if states[0].row.lostSince.Some? then CLEAR_ROW else states[0].row
  {
    assert Ticked(states, ticks, 0);
    TermTick(states, ticks, 0);
    assert !Evaluate(ticks[0].snapshot, Window(states, ticks, 0)).isLost by {
      assert Window(states, ticks, 0) == [];
      assert LatestFirst(Earlier([], ticks[0].snapshot.timestamp)) == [];
    }
  }

  /** Before a loss is first reported its start is at most five minutes back; afterwards the start stays. */
  lemma LossGoesOn(seen: seq<Snapshot>)
    requires Increasing(seen) && Spaced(seen, 2 * MINUTE) && |seen| >= 2
    requires Unhealthy(Last(seen)) && Last(seen).timestamp - seen[RunStart(seen)].timestamp > QUORUM_LOSS_THRESHOLD
    ensures Unhealthy(Last(Before(seen))) && RunStart(Before(seen)) == RunStart(seen)
    ensures Last(Before(seen)).timestamp - seen[RunStart(seen)].timestamp <= QUORUM_LOSS_THRESHOLD ==>
              RunStart(seen) >= FirstKept(seen, Last(seen).timestamp - HISTORY_WINDOW)
  {
    assert seen[|seen| - 1].timestamp <= seen[|seen| - 2].timestamp + 2 * MINUTE;
  }
}
