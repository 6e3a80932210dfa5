/** Loss of the cluster's quorum: one evaluation over a history of snapshots, and when to send which email. */
module QuorumDetection {
  import opened Basics

  datatype Snapshot = Snapshot(hasQuorum: bool, patroniReachable: bool, timestamp: Time)

  datatype QuorumState = QuorumState(isLost: bool, lostSince: Option<Time>)

  const QUORUM_LOSS_THRESHOLD: int := 3 * MINUTE

  predicate Unhealthy(s: Snapshot) { !s.hasQuorum || !s.patroniReachable }

  // ----- evaluate_quorum_loss -----

  function Earlier(history: seq<Snapshot>, before: Time): seq<Snapshot> {
    if history == [] then []
    else (if history[0].timestamp < before then [history[0]] else []) + Earlier(history[1..], before)
  }

  /** Stable insertion into a list sorted from the latest to the earliest. */
  function InsertLatestFirst(s: Snapshot, sorted: seq<Snapshot>): seq<Snapshot> {
    if sorted == [] || s.timestamp >= sorted[0].timestamp then [s] + sorted
    else [sorted[0]] + InsertLatestFirst(s, sorted[1..])
  }

  function LatestFirst(snaps: seq<Snapshot>): seq<Snapshot> {
    if snaps == [] then [] else InsertLatestFirst(snaps[0], LatestFirst(snaps[1..]))
  }

  /** Walking back from `since` while the snapshots are unhealthy. */
  function WalkBack(latestFirst: seq<Snapshot>, since: Time): Time {
    if latestFirst == [] || !Unhealthy(latestFirst[0]) then since
    else WalkBack(latestFirst[1..], latestFirst[0].timestamp)
  }

  function Evaluate(snapshot: Snapshot, history: seq<Snapshot>): QuorumState {
    if !Unhealthy(snapshot) then QuorumState(false, None)
    else
      var since := WalkBack(LatestFirst(Earlier(history, snapshot.timestamp)), snapshot.timestamp);
      if snapshot.timestamp - since > QUORUM_LOSS_THRESHOLD then QuorumState(true, Some(since))
      else QuorumState(false, None)
  }

  method EvaluateQuorumLoss(snapshot: Snapshot, history: seq<Snapshot>) returns (state: QuorumState)
    ensures state == Evaluate(snapshot, history)
  {
    if !Unhealthy(snapshot) {
      return QuorumState(false, None);
    }
    var earlier := LatestFirst(Earlier(history, snapshot.timestamp));
    var lostSince := snapshot.timestamp;
    var i := 0;
    while i < |earlier| && Unhealthy(earlier[i])
      invariant 0 <= i <= |earlier|
      invariant WalkBack(earlier[i..], lostSince) == WalkBack(earlier, snapshot.timestamp)
    {
      lostSince := earlier[i].timestamp;
      i := i + 1;
    }
    var isLost := snapshot.timestamp - lostSince > QUORUM_LOSS_THRESHOLD;
    return QuorumState(isLost, if isLost then Some(lostSince) else None);
  }

  // ----- what the walk finds: the start of the current unhealthy run -----

  /** r is when the unbroken unhealthy run ending with the snapshot began, judged on this history in whatever order: from
      r on everything is unhealthy, and an unhealthy snapshot before r is cut off from it by a healthy one. */
  ghost predicate IsRunStart(snapshot: Snapshot, history: seq<Snapshot>, r: Time) {
    && r <= snapshot.timestamp
    && (r == snapshot.timestamp || exists s | s in history :: s.timestamp == r)
    && (forall s | s in history && r <= s.timestamp < snapshot.timestamp :: Unhealthy(s))
    && (forall s | s in history && s.timestamp < r && Unhealthy(s) :: Broken(history, s.timestamp, r))
  }

  /** Some healthy snapshot lies strictly between the two instants. */
  ghost predicate Broken(history: seq<Snapshot>, from: Time, until: Time) {
    exists h | h in history :: !Unhealthy(h) && from < h.timestamp < until
  }

  lemma {:induction false} EarlierContents(history: seq<Snapshot>, before: Time)
    ensures forall s :: s in Earlier(history, before) <==> s in history && s.timestamp < before
  {
    if history != [] {
      EarlierContents(history[1..], before);
      assert history == [history[0]] + history[1..];
    }
  }

  lemma {:induction false} InsertContents(s: Snapshot, sorted: seq<Snapshot>)
    ensures forall x :: x in InsertLatestFirst(s, sorted) <==> x == s || x in sorted
  {
    if sorted != [] {
      InsertContents(s, sorted[1..]);
      assert sorted == [sorted[0]] + sorted[1..];
    }
  }

  lemma {:induction false} LatestFirstContents(snaps: seq<Snapshot>)
    ensures forall s :: s in LatestFirst(snaps) <==> s in snaps
  {
    if snaps != [] {
      LatestFirstContents(snaps[1..]);
      InsertContents(snaps[0], LatestFirst(snaps[1..]));
      assert snaps == [snaps[0]] + snaps[1..];
    }
  }

  ghost predicate Falling(snaps: seq<Snapshot>) {
    forall i, j | 0 <= i < j < |snaps| :: snaps[i].timestamp >= snaps[j].timestamp
  }

  lemma FallingTail(s: Snapshot, rest: seq<Snapshot>)
    requires Falling(rest) && forall x | x in rest :: x.timestamp <= s.timestamp
    ensures Falling([s] + rest)
  {
  }

  lemma FallingSplit(snaps: seq<Snapshot>)
    requires Falling(snaps) && snaps != []
    ensures Falling(snaps[1..]) && snaps == [snaps[0]] + snaps[1..]
    ensures forall x | x in snaps[1..] :: x.timestamp <= snaps[0].timestamp
  {
    forall x | x in snaps[1..] ensures x.timestamp <= snaps[0].timestamp {
      var i :| 0 <= i < |snaps| - 1 && snaps[1..][i] == x;
      assert snaps[i + 1] == x;
    }
  }

  lemma {:induction false} InsertFalls(s: Snapshot, sorted: seq<Snapshot>)
    requires Falling(sorted)
    ensures Falling(InsertLatestFirst(s, sorted))
  {
    if sorted != [] {
      FallingSplit(sorted);
      if s.timestamp >= sorted[0].timestamp {
        FallingTail(s, sorted);
      } else {
        InsertFalls(s, sorted[1..]);
        InsertContents(s, sorted[1..]);
        FallingTail(sorted[0], InsertLatestFirst(s, sorted[1..]));
      }
    }
  }

  lemma {:induction false} SortFalls(snaps: seq<Snapshot>)
    ensures Falling(LatestFirst(snaps))
  {
    if snaps != [] {
      SortFalls(snaps[1..]);
      InsertFalls(snaps[0], LatestFirst(snaps[1..]));
    }
  }

  /** The start of a run, read on a sorted list: `since` is where the walk stands. */
  ghost predicate RunFrom(latestFirst: seq<Snapshot>, since: Time, r: Time) {
    && r <= since
    && (r == since || exists s | s in latestFirst :: s.timestamp == r)
    && (forall s | s in latestFirst && r <= s.timestamp :: Unhealthy(s))
    && (forall s | s in latestFirst && s.timestamp < r && Unhealthy(s) :: Broken(latestFirst, s.timestamp, r))
  }

  ghost predicate UpToSince(latestFirst: seq<Snapshot>, since: Time) {
    Falling(latestFirst) && forall s | s in latestFirst :: s.timestamp <= since
  }

  /** The start is still the start after one step of the walk. */
  lemma RunFromTail(latestFirst: seq<Snapshot>, since: Time, r: Time)
    requires latestFirst != [] && UpToSince(latestFirst, since) && RunFrom(latestFirst, since, r)
    requires Unhealthy(latestFirst[0])
    ensures UpToSince(latestFirst[1..], latestFirst[0].timestamp)
    ensures RunFrom(latestFirst[1..], latestFirst[0].timestamp, r)
  {
    var head, rest := latestFirst[0], latestFirst[1..];
    FallingSplit(latestFirst);
    assert head in latestFirst;
    assert forall h | h in latestFirst :: h.timestamp <= head.timestamp;
    assert r <= head.timestamp;
    forall s | s in rest && s.timestamp < r && Unhealthy(s) ensures Broken(rest, s.timestamp, r) {
      var h :| h in latestFirst && !Unhealthy(h) && s.timestamp < h.timestamp < r;
      assert h in rest;
    }
  }

  /** The walk ends at the start of the run. */
  lemma {:induction false} WalkEndsAtStart(latestFirst: seq<Snapshot>, since: Time, r: Time)
    requires UpToSince(latestFirst, since) && RunFrom(latestFirst, since, r)
    ensures WalkBack(latestFirst, since) == r
  {
    if latestFirst != [] {
      var head := latestFirst[0];
      FallingSplit(latestFirst);
      assert head in latestFirst;
      if Unhealthy(head) {
        RunFromTail(latestFirst, since, r);
        WalkEndsAtStart(latestFirst[1..], head.timestamp, r);
      } else {
        assert head.timestamp < r;
        assert forall s | s in latestFirst :: s.timestamp <= head.timestamp;
      }
    }
  }

  /** What a walk goes through, and where it ends. */
  lemma WalkOfHistory(snapshot: Snapshot, history: seq<Snapshot>, r: Time)
    requires IsRunStart(snapshot, history, r)
    ensures WalkBack(LatestFirst(Earlier(history, snapshot.timestamp)), snapshot.timestamp) == r
  {
    var earlier := Earlier(history, snapshot.timestamp);
    var sorted := LatestFirst(earlier);
    SortFalls(earlier);
    EarlierContents(history, snapshot.timestamp);
    LatestFirstContents(earlier);
    assert forall s :: s in sorted <==> s in history && s.timestamp < snapshot.timestamp;
    forall s | s in sorted && s.timestamp < r && Unhealthy(s) ensures Broken(sorted, s.timestamp, r) {
      var h :| h in history && !Unhealthy(h) && s.timestamp < h.timestamp < r;
      assert h in sorted;
    }
    WalkEndsAtStart(sorted, snapshot.timestamp, r);
  }

  /** The evaluation, on any history in any order: the quorum is lost exactly when the snapshot shows no quorum or no
      Patroni, and the unbroken unhealthy run that it ends is longer than three minutes; and it is lost since the start
      of that run. */
  lemma EvaluationIsContinuousLoss(snapshot: Snapshot, history: seq<Snapshot>, r: Time)
    requires IsRunStart(snapshot, history, r)
    ensures Evaluate(snapshot, history)
            == if (!snapshot.hasQuorum || !snapshot.patroniReachable) && snapshot.timestamp - r > 3 * MINUTE
               then QuorumState(true, Some(r)) else QuorumState(false, None)
  {
    WalkOfHistory(snapshot, history, r);
  }

  lemma RunStartIsUnique(snapshot: Snapshot, history: seq<Snapshot>, r: Time, q: Time)
    requires IsRunStart(snapshot, history, r) && IsRunStart(snapshot, history, q)
    ensures r == q
  {
    WalkOfHistory(snapshot, history, r);
    WalkOfHistory(snapshot, history, q);
  }

  /** No two snapshots of one instant disagree. */
  ghost predicate Agreeing(history: seq<Snapshot>) {
    forall s, t | s in history && t in history && s.timestamp == t.timestamp :: Unhealthy(s) == Unhealthy(t)
  }

  lemma {:induction false} WalkFindsStart(latestFirst: seq<Snapshot>, since: Time)
    requires UpToSince(latestFirst, since) && Agreeing(latestFirst)
    requires forall s | s in latestFirst && s.timestamp == since :: Unhealthy(s)
    ensures RunFrom(latestFirst, since, WalkBack(latestFirst, since))
  {
    if latestFirst != [] {
      var head, rest := latestFirst[0], latestFirst[1..];
      FallingSplit(latestFirst);
      assert head in latestFirst;
      assert forall s | s in rest :: s in latestFirst;
      if Unhealthy(head) {
        WalkFindsStart(rest, head.timestamp);
        RunFromCons(head, rest, since, WalkBack(rest, head.timestamp));
      } else {
        assert forall s | s in latestFirst :: s.timestamp <= head.timestamp < since;
      }
    }
  }

  lemma RunFromCons(head: Snapshot, rest: seq<Snapshot>, since: Time, r: Time)
    requires RunFrom(rest, head.timestamp, r) && Unhealthy(head) && head.timestamp <= since
    ensures RunFrom([head] + rest, since, r)
  {
    var all := [head] + rest;
    assert head in all && forall s :: s in all <==> s == head || s in rest;
    forall s | s in all && s.timestamp < r && Unhealthy(s) ensures Broken(all, s.timestamp, r) {
      var h :| h in rest && !Unhealthy(h) && s.timestamp < h.timestamp < r;
      assert h in all;
    }
  }

  /** Every history whose snapshots of one instant agree has such a start. */
  lemma RunStartExists(snapshot: Snapshot, history: seq<Snapshot>) returns (r: Time)
    requires Agreeing(history)
    ensures IsRunStart(snapshot, history, r)
  {
    var earlier := Earlier(history, snapshot.timestamp);
    var sorted := LatestFirst(earlier);
    SortFalls(earlier);
    EarlierContents(history, snapshot.timestamp);
    LatestFirstContents(earlier);
    assert forall s :: s in sorted <==> s in history && s.timestamp < snapshot.timestamp;
    WalkFindsStart(sorted, snapshot.timestamp);
    r := WalkBack(sorted, snapshot.timestamp);
    forall s | s in history && s.timestamp < r && Unhealthy(s) ensures Broken(history, s.timestamp, r) {
      assert s in sorted;
      var h :| h in sorted && !Unhealthy(h) && s.timestamp < h.timestamp < r;
      assert h in history;
    }
  }

  /** Two snapshots of one instant that disagree: the answer then depends on their order in the list, and there is no
      start that the history as a whole determines. */
  lemma OrderMattersWhenTheyDisagree()
    ensures var now := Snapshot(false, true, 4 * MINUTE);
            var bad, good := Snapshot(false, true, 0), Snapshot(true, true, 0);
            Evaluate(now, [bad, good]).isLost && !Evaluate(now, [good, bad]).isLost
  {
    var now := Snapshot(false, true, 4 * MINUTE);
    var bad, good := Snapshot(false, true, 0), Snapshot(true, true, 0);
    WalkOfTwo(bad, good, now.timestamp);
    WalkOfTwo(good, bad, now.timestamp);
  }

  lemma WalkOfTwo(x: Snapshot, y: Snapshot, now: Time)
    requires x.timestamp == y.timestamp < now && Unhealthy(x) == !Unhealthy(y)
    ensures WalkBack(LatestFirst(Earlier([x, y], now)), now) == if Unhealthy(x) then x.timestamp else now
  {
    EarlierOfTwo(x, y, now);
    SortOfTwo(x, y);
    assert [x, y][1..] == [y] && [y][1..] == [];
    assert WalkBack([y][1..], y.timestamp) == y.timestamp;
    assert WalkBack([y], x.timestamp) == if Unhealthy(y) then y.timestamp else x.timestamp;
    assert WalkBack([x, y], now) == if Unhealthy(x) then WalkBack([y], x.timestamp) else now;
  }

  lemma EarlierOfTwo(x: Snapshot, y: Snapshot, now: Time)
    requires x.timestamp < now && y.timestamp < now
    ensures Earlier([x, y], now) == [x, y]
  {
    assert [x, y][1..] == [y] && [y][1..] == [] && [x] + [y] == [x, y];
    assert Earlier([y], now) == [y] + Earlier([y][1..], now) == [y];
  }

  lemma SortOfTwo(x: Snapshot, y: Snapshot)
    requires x.timestamp == y.timestamp
    ensures LatestFirst([x, y]) == [x, y]
  {
    assert [x, y][1..] == [y] && [y][1..] == [] && [x] + [y] == [x, y];
    assert LatestFirst([y]) == InsertLatestFirst(y, LatestFirst([y][1..])) == [y];
  }

  // ----- emails -----

  const REMINDER_WINDOWS: seq<int> := [1 * HOUR, 3 * HOUR, 6 * HOUR]

  predicate ShouldSendInitialEmail(state: QuorumState, emailSentAt: Option<Time>) {
    state.isLost && emailSentAt.None?
  }

  predicate ReminderDue(emailSentAt: Option<Time>, sent: seq<int>, now: Time, window: int) {
    emailSentAt.Some? && now - emailSentAt.value >= window && window !in sent
  }

  /** Tries the windows from the longest to the shortest. */
  function ShouldSendReminder(state: QuorumState, emailSentAt: Option<Time>, sent: seq<int>, now: Time): Option<int> {
    if !state.isLost || emailSentAt.None? then None
    else if ReminderDue(emailSentAt, sent, now, REMINDER_WINDOWS[2]) then Some(REMINDER_WINDOWS[2])
    else if ReminderDue(emailSentAt, sent, now, REMINDER_WINDOWS[1]) then Some(REMINDER_WINDOWS[1])
    else if ReminderDue(emailSentAt, sent, now, REMINDER_WINDOWS[0]) then Some(REMINDER_WINDOWS[0])
    else None
  }

  /** The reminder sent is the longest window that is due and not sent yet; none exactly when nothing is due. */
  lemma ReminderIsLongestDue(state: QuorumState, emailSentAt: Option<Time>, sent: seq<int>, now: Time, window: int)
    ensures ShouldSendReminder(state, emailSentAt, sent, now) == Some(window) <==>
            && state.isLost && window in REMINDER_WINDOWS && ReminderDue(emailSentAt, sent, now, window)
            && forall w | w in REMINDER_WINDOWS && w > window :: !ReminderDue(emailSentAt, sent, now, w)
  {
    assert forall w :: w in REMINDER_WINDOWS <==>
             w == REMINDER_WINDOWS[0] || w == REMINDER_WINDOWS[1] || w == REMINDER_WINDOWS[2];
  }
}
