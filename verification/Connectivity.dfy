/** Offline-time accounting over a window, from a user's connectivity log. */
module Connectivity {
  import opened Basics

  datatype Kind = WentOffline | WentOnline

  datatype Event = Event(kind: Kind, ts: Time)

  /** The order in which the table is read. */
  ghost predicate InTimeOrder(log: seq<Event>) {
    forall i, j | 0 <= i < j < |log| :: log[i].ts <= log[j].ts
  }

  /** Is the user offline at instant t? What the last event up to t says; online before any event. */
  function OfflineAt(log: seq<Event>, t: Time): bool {
    log != [] && (if log[|log| - 1].ts <= t then log[|log| - 1].kind.WentOffline? else OfflineAt(log[..|log| - 1], t))
  }

  /** The number of instants (microseconds) of [from, until) at which the user is offline. */
  function OfflineTime(log: seq<Event>, from: Time, until: Time): int
    decreases until - from
  {
    if until <= from then 0 else OfflineTime(log, from, until - 1) + if OfflineAt(log, until - 1) then 1 else 0
  }

  /** Event i takes the user from online to offline. */
  predicate Drops(log: seq<Event>, i: nat)
    requires i < |log|
  {
    log[i].kind.WentOffline? && (i == 0 || log[i - 1].kind.WentOnline?)
  }

  function DropsSince(log: seq<Event>, since: Time): nat {
    if log == [] then 0
    else DropsSince(log[..|log| - 1], since)
         + if log[|log| - 1].ts >= since && Drops(log, |log| - 1) then 1 else 0
  }

  function OfflineEventsSince(log: seq<Event>, since: Time): nat {
    if log == [] then 0
    else OfflineEventsSince(log[..|log| - 1], since)
         + if log[|log| - 1].ts >= since && log[|log| - 1].kind.WentOffline? then 1 else 0
  }

  /** The latest instant the accounting touches. */
  function End(log: seq<Event>, now: Time): Time {
    if log == [] then now else Max(now, log[|log| - 1].ts)
  }

  function OfflineAtEnd(log: seq<Event>): bool { log != [] && log[|log| - 1].kind.WentOffline? }

  /** What the accounting adds up to: the offline time up to its end, less what lies past now when the log ends
      offline. */
  function Counted(log: seq<Event>, now: Time, window: int): int {
    OfflineTime(log, now - window, End(log, now)) - if OfflineAtEnd(log) then End(log, now) - now else 0
  }

  function DropsIn(log: seq<Event>, since: Time): set<nat> {
    set i: nat | i < |log| && log[i].ts >= since && Drops(log, i)
  }

  lemma OneMoreEvent(log: seq<Event>, since: Time)
    requires log != []
    ensures var k := |log| - 1;
            && k !in DropsIn(log[..k], since)
            && DropsIn(log, since) == DropsIn(log[..k], since) + if log[k].ts >= since && Drops(log, k) then {k} else {}
  {
    var k := |log| - 1;
    forall i: nat | i < k ensures Drops(log[..k], i) == Drops(log, i) && log[..k][i] == log[i] {
    }
  }

  lemma {:induction false} DropsCounted(log: seq<Event>, since: Time)
    ensures DropsSince(log, since) == |DropsIn(log, since)|
  {
    if log != [] {
      DropsCounted(log[..|log| - 1], since);
      OneMoreEvent(log, since);
    }
  }

  // ----- the accounting loop -----

  /** The log's events before the window, as one query; the window's events, as another. */
  method WindowStart(log: seq<Event>, since: Time) returns (first: nat)
    requires InTimeOrder(log)
    ensures first <= |log|
    ensures forall i | 0 <= i < |log| :: log[i].ts >= since <==> i >= first
  {
    first := 0;
    while first < |log| && log[first].ts < since
      invariant first <= |log|
      invariant forall i | 0 <= i < first :: log[i].ts < since
    {
      first := first + 1;
    }
  }

  /** How far the account goes: to the last event of the window. */
  function Frontier(log: seq<Event>, since: Time): Time {
    if log == [] then since else Max(since, log[|log| - 1].ts)
  }

  /** The loop's account after some events: what is counted, plus the spell in progress up to the frontier. */
  ghost predicate Accounted(log: seq<Event>, since: Time, frontier: Time, offlineSince: Option<Time>, total: int) {
    && since <= frontier
    && (offlineSince.Some? <==> OfflineAtEnd(log))
    && total + (if offlineSince.Some? then frontier - offlineSince.value else 0) == OfflineTime(log, since, frontier)
  }

  /** One event: a spell opens when none is open, and closes when one is. */
  method Account(e: Event, offlineSince: Option<Time>, total: int, transitions: nat)
      returns (since: Option<Time>, newTotal: int, newTransitions: nat)
    ensures e.kind.WentOffline? ==>
              && since == (if offlineSince.None? then Some(e.ts) else offlineSince)
              && newTotal == total && newTransitions == transitions + if offlineSince.None? then 1 else 0
    ensures e.kind.WentOnline? ==>
              && since == None && newTransitions == transitions
              && newTotal == if offlineSince.None? then total else total + (e.ts - offlineSince.value)
  {
    since, newTotal, newTransitions := offlineSince, total, transitions;
    if e.kind == WentOffline {
      if offlineSince == None {
        since := Some(e.ts);
        newTransitions := newTransitions + 1;
      }
    } else if e.kind == WentOnline {
      if offlineSince != None {
        newTotal := newTotal + (e.ts - offlineSince.value);
        since := None;
      }
    }
  }

  /** The offline spells of the window, counted event by event. */
  method StatsConnectivity(log: seq<Event>, now: Time, window: int) returns (transitionsOffline: nat, totalOffline: int)
    requires InTimeOrder(log) && window >= 0
    ensures var since := now - window;
            && transitionsOffline == DropsSince(log, since)
            && transitionsOffline == |set i: nat | i < |log| && log[i].ts >= since && Drops(log, i)|
            && totalOffline == Counted(log, now, window)
  {
    var since := now - window;
    var first := WindowStart(log, since);
    var offlineSince: Option<Time> := None;
    if first > 0 && log[first - 1].kind == WentOffline {
      offlineSince := Some(since);
    }
    totalOffline := 0;
    transitionsOffline := 0;
    BeforeTheWindow(log[..first], since);
    for i := first to |log|
      invariant Accounted(log[..i], since, Frontier(log[..i], since), offlineSince, totalOffline)
      invariant transitionsOffline == DropsSince(log[..i], since)
    {
      assert log[..i + 1] == log[..i] + [log[i]];
      NextEvent(log[..i], since, offlineSince, totalOffline, log[i]);
      offlineSince, totalOffline, transitionsOffline := Account(log[i], offlineSince, totalOffline, transitionsOffline);
    }
    assert log[..|log|] == log;
    DropsCounted(log, since);
    UpToNow(log, since, offlineSince, totalOffline, now);
    if offlineSince != None {
      totalOffline := totalOffline + (now - offlineSince.value);
    }
  }

  lemma {:induction false} BeforeTheWindow(log: seq<Event>, since: Time)
    requires forall i | 0 <= i < |log| :: log[i].ts < since
    ensures DropsSince(log, since) == 0
  {
    if log != [] {
      BeforeTheWindow(log[..|log| - 1], since);
    }
  }

  /** Time is counted instant by instant: logs that agree on a stretch count it alike. */
  lemma {:induction false} SameStretch(a: seq<Event>, b: seq<Event>, from: Time, until: Time)
    requires forall t | from <= t < until :: OfflineAt(a, t) == OfflineAt(b, t)
    ensures OfflineTime(a, from, until) == OfflineTime(b, from, until)
    decreases until - from
  {
    if from < until {
      SameStretch(a, b, from, until - 1);
      assert OfflineAt(a, until - 1) == OfflineAt(b, until - 1);
    }
  }

  /** After the last event, offline time grows with the clock or not at all. */
  lemma {:induction false} SteadyAfterLast(log: seq<Event>, from: Time, frontier: Time, until: Time)
    requires from <= frontier <= until && (log != [] ==> log[|log| - 1].ts <= frontier)
    ensures OfflineTime(log, from, until)
            == OfflineTime(log, from, frontier) + (if OfflineAtEnd(log) then until - frontier else 0)
    decreases until - frontier
  {
    if frontier < until {
      SteadyAfterLast(log, from, frontier, until - 1);
    }
  }

  /** One more event changes the status only from its own instant on. */
  lemma AppendIsLocal(log: seq<Event>, e: Event, from: Time)
    ensures OfflineTime(log + [e], from, e.ts) == OfflineTime(log, from, e.ts)
  {
    assert (log + [e])[..|log|] == log;
    SameStretch(log + [e], log, from, e.ts);
  }

  lemma NextEvent(log: seq<Event>, since: Time, offlineSince: Option<Time>, total: int, e: Event)
    requires Accounted(log, since, Frontier(log, since), offlineSince, total) && Frontier(log, since) <= e.ts
    ensures Frontier(log + [e], since) == e.ts
    ensures var still := if offlineSince.None? then Some(e.ts) else offlineSince;
            e.kind.WentOffline? ==> Accounted(log + [e], since, e.ts, still, total)
    ensures var counted := if offlineSince.None? then total else total + (e.ts - offlineSince.value);
            e.kind.WentOnline? ==> Accounted(log + [e], since, e.ts, None, counted)
    ensures DropsSince(log + [e], since)
            == DropsSince(log, since) + if e.kind.WentOffline? && offlineSince.None? then 1 else 0
  {
    assert (log + [e])[..|log|] == log;
    AppendIsLocal(log, e, since);
    SteadyAfterLast(log, since, Frontier(log, since), e.ts);
  }

  /** Closing the account at now. */
  lemma UpToNow(log: seq<Event>, since: Time, offlineSince: Option<Time>, total: int, now: Time)
    requires Accounted(log, since, Frontier(log, since), offlineSince, total) && since <= now
    ensures total + (if offlineSince.Some? then now - offlineSince.value else 0)
            == Counted(log, now, now - since)
  {
    SteadyAfterLast(log, since, Frontier(log, since), End(log, now));
  }

  // ----- what the totals mean -----

  lemma {:induction false} OfflineTimeBounds(log: seq<Event>, from: Time, until: Time)
    requires from <= until
    ensures 0 <= OfflineTime(log, from, until) <= until - from
    decreases until - from
  {
    if from < until {
      OfflineTimeBounds(log, from, until - 1);
    }
  }

  /** One status all along a stretch. */
  ghost predicate Steady(log: seq<Event>, from: Time, until: Time, offline: bool) {
    forall t | from <= t < until :: OfflineAt(log, t) == offline
  }

  lemma SteadyOneMore(log: seq<Event>, from: Time, until: Time, offline: bool)
    requires from < until
    ensures Steady(log, from, until, offline) <==>
              Steady(log, from, until - 1, offline) && OfflineAt(log, until - 1) == offline
  {
  }

  /** Offline time is the whole stretch, or nothing, exactly when every instant of it is offline, or none. */
  lemma {:induction false} AllOrNothing(log: seq<Event>, from: Time, until: Time)
    requires from <= until
    ensures OfflineTime(log, from, until) == until - from <==> Steady(log, from, until, true)
    ensures OfflineTime(log, from, until) == 0 <==> Steady(log, from, until, false)
    decreases until - from
  {
    if from < until {
      AllOrNothing(log, from, until - 1);
      OfflineTimeBounds(log, from, until - 1);
      SteadyOneMore(log, from, until, true);
      SteadyOneMore(log, from, until, false);
    }
  }

  /** The status past now is the status the log ends with: nothing changes after now. */
  ghost predicate SettledBy(log: seq<Event>, now: Time) {
    Steady(log, now, End(log, now), OfflineAtEnd(log))
  }

  /** For every window, the total is the measure of its offline instants exactly when the log's later events, if any,
      leave the status of now as it is. */
  lemma TotalIsMeasureExactly(log: seq<Event>, now: Time, window: int)
    requires window >= 0
    ensures Counted(log, now, window) == OfflineTime(log, now - window, now) <==> SettledBy(log, now)
  {
    Additive(log, now - window, now, End(log, now));
    AllOrNothing(log, now, End(log, now));
  }

  /** For a log that ends by now, the total is the measure of the offline instants of the window, no less than nothing
      and no more than the window. */
  lemma TotalIsMeasure(log: seq<Event>, now: Time, window: int)
    requires window >= 0 && (forall i | 0 <= i < |log| :: log[i].ts <= now)
    ensures Counted(log, now, window) == OfflineTime(log, now - window, now)
    ensures 0 <= Counted(log, now, window) <= window
  {
    TotalIsMeasureExactly(log, now, window);
    OfflineTimeBounds(log, now - window, now);
  }

  /** An event stamped after now can make the total negative: the clamp is then needed. */
  lemma LaterEventBreaksTheBounds(now: Time, window: int)
    requires window >= 0
    ensures var log := [Event(WentOffline, now + 1)];
            InTimeOrder(log) && !SettledBy(log, now) && Counted(log, now, window) == -1
  {
    var log := [Event(WentOffline, now + 1)];
    assert log == [] + [log[0]];
    AppendIsLocal([], log[0], now - window);
    SteadyAfterLast([], now - window, now - window, now + 1);
    assert !OfflineAt(log, now);
  }

  function UptimePercent(total: int, window: int): real
    requires window >= 0
  {
    var uptime := if window > 0 then 100.0 * (1.0 - (total as real / window as real)) else 100.0;
    var capped := if uptime > 100.0 then 100.0 else uptime;
    if capped < 0.0 then 0.0 else capped
  }

  /** Within the bounds, the clamp never acts. */
  lemma ClampNeverActs(total: int, window: int)
    requires 0 <= total <= window && window > 0
    ensures UptimePercent(total, window) == 100.0 * (1.0 - (total as real / window as real))
    ensures UptimePercent(total, window) == 100.0 <==> total == 0
    ensures UptimePercent(total, window) == 0.0 <==> total == window
  {
    var share := total as real / window as real;
    assert share * (window as real) == total as real;
    assert 0.0 <= share <= 1.0;
    assert share == 1.0 ==> total as real == window as real;
  }

  lemma {:induction false} Additive(log: seq<Event>, from: Time, mid: Time, until: Time)
    requires from <= mid <= until
    ensures OfflineTime(log, from, until) == OfflineTime(log, from, mid) + OfflineTime(log, mid, until)
    decreases until - mid
  {
    if mid < until {
      Additive(log, from, mid, until - 1);
    }
  }

  /** Splitting the window anywhere, the first part computed from the log as it was then: the parts add up. */
  lemma WindowSplits(log: seq<Event>, n: nat, from: Time, mid: Time, until: Time)
    requires n <= |log| && from <= mid <= until
    requires forall i | n <= i < |log| :: log[i].ts >= mid
    ensures OfflineTime(log, from, until) == OfflineTime(log[..n], from, mid) + OfflineTime(log, mid, until)
  {
    Additive(log, from, mid, until);
    forall t | from <= t < mid ensures OfflineAt(log[..n], t) == OfflineAt(log, t) {
      LaterEventsDoNotMatter(log, n, t);
    }
    SameStretch(log[..n], log, from, mid);
  }

  lemma {:induction false} LaterEventsDoNotMatter(log: seq<Event>, n: nat, t: Time)
    requires n <= |log| && forall i | n <= i < |log| :: log[i].ts > t
    ensures OfflineAt(log[..n], t) == OfflineAt(log, t)
  {
    if n < |log| {
      LaterEventsDoNotMatter(log[..|log| - 1], n, t);
      assert log[..|log| - 1][..n] == log[..n];
    } else {
      assert log[..n] == log;
    }
  }

  /** The count of transitions is the number of `went_offline` rows of the window exactly when none of them repeats
      the one before. */
  lemma {:induction false} TransitionsAgainstRows(log: seq<Event>, since: Time)
    ensures DropsSince(log, since) <= OfflineEventsSince(log, since)
    ensures DropsSince(log, since) == OfflineEventsSince(log, since) <==>
            forall i | 0 <= i < |log| && log[i].ts >= since && log[i].kind.WentOffline? :: Drops(log, i)
  {
    if log != [] {
      var init := log[..|log| - 1];
      TransitionsAgainstRows(init, since);
      assert forall i | 0 <= i < |init| :: Drops(init, i) == Drops(log, i) && init[i] == log[i];
    }
  }

  /** What an emitter does: it writes its row when the status it has read, earlier, in its own session is online. */
  function Emitted(log: seq<Event>, readOnline: bool, ts: Time): seq<Event> {
    if readOnline then log + [Event(WentOffline, ts)] else log
  }

  /** How the counts come to differ: the watchdog and the "go offline" handler read one user's status in two sessions,
      without a lock, before either commits. Both write a `went_offline` row, and only the first one is a transition;
      had the second read after the first committed, it would have written nothing. */
  lemma TwoEmittersWriteTwoRows(first: Time, second: Time, since: Time)
    requires since <= first <= second
    ensures var log := Emitted(Emitted([], true, first), true, second);
            && InTimeOrder(log) && OfflineEventsSince(log, since) == 2 && DropsSince(log, since) == 1
    ensures var log := Emitted(Emitted([], true, first), false, second);
            && OfflineEventsSince(log, since) == 1 == DropsSince(log, since)
  {
    var one := Emitted([], true, first);
    var two := Emitted(one, true, second);
    assert one[..|one| - 1] == [] && two[..|two| - 1] == one;
    OneDrop(first, since);
    assert OfflineEventsSince(two, since) == OfflineEventsSince(one, since) + 1;
    assert DropsSince(two, since) == DropsSince(one, since);
  }

  lemma OneDrop(ts: Time, since: Time)
    requires since <= ts
    ensures var one := Emitted([], true, ts); OfflineEventsSince(one, since) == 1 == DropsSince(one, since)
  {
    var one := Emitted([], true, ts);
    assert one[..|one| - 1] == [];
    assert OfflineEventsSince([], since) == 0 && DropsSince([], since) == 0;
  }
}
