/** Re-cloning over whole runs: never too often, never without reason, and nobody is forgotten. */
module ReinitRuns {
  import opened Basics
  import opened ReplicaReinit

  datatype Moment = Moment(now: Time, sight: Sight, after: int)

  ghost predicate Stepped(mems: seq<Memory>, acts: seq<Action>, run: seq<Moment>, k: nat)
    requires k < |run| == |acts| < |mems|
  {
    (mems[k + 1], acts[k]) == Observe(mems[k], run[k].sight, run[k].now, run[k].after)
  }

  /** mems[k] is the memory before tick k, acts[k] what tick k does. */
  ghost predicate IsRun(mems: seq<Memory>, acts: seq<Action>, run: seq<Moment>) {
    && |acts| == |run| && |mems| == |run| + 1
    && forall k | 0 <= k < |run| :: Stepped(mems, acts, run, k)
  }

  ghost predicate TimeFlows(run: seq<Moment>) {
    forall i, j | 0 <= i < j < |run| :: run[i].now <= run[j].now
  }

  /** The tick re-clones the member, or alerts about it. */
  ghost predicate ActsOn(act: Action, name: string) {
    match act
    case Nothing => false
    case Alerted(names) => name in names
    case Recloned(n) => n == name
  }

  // ----- one tick -----

  lemma ObserveHandles(mem: Memory, sight: Sight, now: Time, after: int)
    ensures var (mem', act) := Observe(mem, sight, now, after);
            && (forall x | ActsOn(act, x) ::
                  x in mem'.lastHandled && mem'.lastHandled[x] == now && !CoolingDown(mem.lastHandled, x, now))
            && (forall x | !ActsOn(act, x) ::
                  (x in mem'.lastHandled <==> x in mem.lastHandled)
                  && (x in mem.lastHandled ==> mem'.lastHandled[x] == mem.lastHandled[x]))
  {
    if sight.Seen? {
      DecisionIsSafe(sight.cluster, mem.stuckSince, mem.lastHandled, now, after);
    }
  }

  // ----- two actions on a member are an hour apart -----

  ghost predicate HandledBy(mem: Memory, name: string, t: Time) {
    name in mem.lastHandled && mem.lastHandled[name] >= t
  }

  lemma HandledAt(mems: seq<Memory>, acts: seq<Action>, run: seq<Moment>, name: string, k: nat, t: Time)
    requires IsRun(mems, acts, run) && k < |run| && t <= run[k].now
    ensures ActsOn(acts[k], name) || HandledBy(mems[k], name, t) ==> HandledBy(mems[k + 1], name, t)
    ensures ActsOn(acts[k], name) ==> !CoolingDown(mems[k].lastHandled, name, run[k].now)
  {
    assert Stepped(mems, acts, run, k);
    ObserveHandles(mems[k], run[k].sight, run[k].now, run[k].after);
  }

  lemma {:induction false} StaysHandled(
      mems: seq<Memory>, acts: seq<Action>, run: seq<Moment>, name: string, i: nat, k: nat)
    requires IsRun(mems, acts, run) && TimeFlows(run) && i < k <= |run| && ActsOn(acts[i], name)
    ensures HandledBy(mems[k], name, run[i].now)
  {
    if k > i + 1 {
      StaysHandled(mems, acts, run, name, i, k - 1);
    }
    assert run[i].now <= run[k - 1].now;
    HandledAt(mems, acts, run, name, k - 1, run[i].now);
  }

  /** Two actions on the same member, re-cloning or alert, are at least 60 minutes apart. */
  lemma ActionsAreSpaced(mems: seq<Memory>, acts: seq<Action>, run: seq<Moment>, name: string, i: nat, j: nat)
    requires IsRun(mems, acts, run) && TimeFlows(run) && i < j < |run|
    requires ActsOn(acts[i], name) && ActsOn(acts[j], name)
    ensures run[j].now - run[i].now >= 60 * MINUTE
  {
    StaysHandled(mems, acts, run, name, i, j);
    HandledAt(mems, acts, run, name, j, run[i].now);
  }

  // ----- every target was stuck throughout -----

  ghost predicate StuckNow(m: Moment, name: string) {
    m.sight.Seen? && Settled(m.sight.cluster) && name in StuckIn(m.sight.cluster)
  }

  /** From tick i to before tick k every look at the cluster found the member stuck, beginning with tick i itself. */
  ghost predicate StuckThrough(run: seq<Moment>, name: string, i: nat, k: nat)
    requires i < k <= |run|
  {
    StuckNow(run[i], name) && forall j | i <= j < k :: run[j].sight == Unreachable || StuckNow(run[j], name)
  }

  ghost predicate SinceIsTrue(run: seq<Moment>, mem: Memory, name: string, k: nat)
    requires k <= |run|
  {
    name in mem.stuckSince ==>
      exists i | 0 <= i < k :: run[i].now == mem.stuckSince[name] && StuckThrough(run, name, i, k)
  }

  lemma SinceAt(mems: seq<Memory>, acts: seq<Action>, run: seq<Moment>, name: string, k: nat)
    requires IsRun(mems, acts, run) && k < |run| && SinceIsTrue(run, mems[k], name, k)
    ensures SinceIsTrue(run, mems[k + 1], name, k + 1)
    ensures name in mems[k + 1].stuckSince && run[k].sight.Seen? ==> StuckNow(run[k], name)
  {
    assert Stepped(mems, acts, run, k);
    var m, mem, mem' := run[k], mems[k], mems[k + 1];
    if name in mem'.stuckSince {
      if name in mem.stuckSince && mem'.stuckSince[name] == mem.stuckSince[name] {
        var i :| 0 <= i < k && run[i].now == mem.stuckSince[name] && StuckThrough(run, name, i, k);
        assert StuckThrough(run, name, i, k + 1);
      } else {
        assert StuckThrough(run, name, k, k + 1);
      }
    }
  }

  lemma {:induction false} SinceHolds(mems: seq<Memory>, acts: seq<Action>, run: seq<Moment>, name: string, k: nat)
    requires IsRun(mems, acts, run) && k <= |run| && name !in mems[0].stuckSince
    ensures SinceIsTrue(run, mems[k], name, k)
  {
    if k > 0 {
      SinceHolds(mems, acts, run, name, k - 1);
      SinceAt(mems, acts, run, name, k - 1);
    }
  }

  lemma ActionIsDue(mems: seq<Memory>, acts: seq<Action>, run: seq<Moment>, name: string, k: nat)
    requires IsRun(mems, acts, run) && k < |run| && ActsOn(acts[k], name)
    ensures run[k].sight.Seen? && Settled(run[k].sight.cluster)
    ensures name in mems[k + 1].stuckSince && run[k].now - mems[k + 1].stuckSince[name] >= run[k].after
    ensures acts[k] == Recloned(name) ==>
              var c := run[k].sight.cluster;
              && |StuckIn(c)| < |Replicas(c.members)|
              && (DistinctNames(c.members) ==> HasHealthyReplica(c))
              && (exists m | m in c.members :: m.name == name && IsReplica(m) && IsStuck(m, LeaderTimeline(c)))
              && (forall x | x in StuckIn(c) :: !CoolingDown(mems[k].lastHandled, x, run[k].now))
  {
    assert Stepped(mems, acts, run, k);
    DecisionIsSafe(run[k].sight.cluster, mems[k].stuckSince, mems[k].lastHandled, run[k].now, run[k].after);
  }

  /** A member acted on was stuck at every look taken over a stretch at least `after` long, up to this very tick. */
  lemma ActionsAreJustified(mems: seq<Memory>, acts: seq<Action>, run: seq<Moment>, name: string, k: nat)
    requires IsRun(mems, acts, run) && k < |run| && ActsOn(acts[k], name) && name !in mems[0].stuckSince
    ensures exists i | 0 <= i <= k :: run[k].now - run[i].now >= run[k].after && StuckThrough(run, name, i, k + 1)
  {
    SinceHolds(mems, acts, run, name, k + 1);
    ActionIsDue(mems, acts, run, name, k);
  }

  // ----- nobody is forgotten -----

  /** A tick of a quiet term: the leader runs, some replica is healthy, only members of the group are stuck, and
      the member u is. */
  ghost predicate TermTick(m: Moment, group: set<string>, u: string, after: int) {
    && m.after == after
    && StuckNow(m, u)
    && HasHealthyReplica(m.sight.cluster)
    && forall x | x in StuckIn(m.sight.cluster) :: x in group
  }

  /** A leader's term: an empty series at first, ticks at most `gap` apart, and nothing handled in the future. */
  ghost predicate IsTerm(
      mems: seq<Memory>, acts: seq<Action>, run: seq<Moment>, group: set<string>, u: string, after: int, gap: int)
  {
    && IsRun(mems, acts, run) && run != []
    && mems[0].stuckSince == map[]
    && (forall x | x in mems[0].lastHandled :: mems[0].lastHandled[x] <= run[0].now)
    && (forall k | 0 <= k < |run| :: TermTick(run[k], group, u, after))
    && (forall k | 0 <= k < |run| - 1 :: run[k].now <= run[k + 1].now <= run[k].now + gap)
  }

  /** The others of the group that would be chosen before u, or with equal right. */
  ghost function Ahead(mem: Memory, group: set<string>, u: string): set<string> {
    set x | x in group && x != u && !Precedes(mem.lastHandled, u, x)
  }

  /** A turn: the hour of cooldown, then the wait for the next tick. */
  function Turn(gap: int): int { 60 * MINUTE + gap }

  ghost predicate Waiting(
      mem: Memory, start: Time, last: Time, latest: Time, group: set<string>, u: string, after: int, gap: int)
  {
    && u in mem.stuckSince && mem.stuckSince[u] == start
    && (forall x | x in mem.stuckSince :: mem.stuckSince[x] >= start)
    && (forall x | x in mem.lastHandled :: mem.lastHandled[x] <= latest)
    && last < Max(start + after, latest + REINIT_COOLDOWN)
    && latest <= last && start <= last
    && |Ahead(mem, group, u)| < |group|
    && latest <= start + after + Levels(|group| - 1 - |Ahead(mem, group, u)|, Turn(gap))
  }

  lemma AheadIsSmaller(mem: Memory, group: set<string>, u: string)
    requires u in group
    ensures |Ahead(mem, group, u)| < |group|
  {
    SubsetSize(Ahead(mem, group, u), group - {u});
    assert |group - {u}| == |group| - 1;
  }

  lemma {:induction false} LevelsNonNegative(m: nat, level: int)
    requires level >= 0
    ensures Levels(m, level) >= 0
  {
    if m > 0 {
      LevelsNonNegative(m - 1, level);
    }
  }

  /** The first tick of a term acts on nobody, and starts every series. */
  lemma TermStarts(mem: Memory, m: Moment, group: set<string>, u: string, after: int, gap: int)
    requires mem.stuckSince == map[] && TermTick(m, group, u, after) && after > 0 && gap >= 0
    requires forall x | x in mem.lastHandled :: mem.lastHandled[x] <= m.now
    ensures var (mem', act) := Observe(mem, m.sight, m.now, after);
            act == Nothing && Waiting(mem', m.now, m.now, m.now, group, u, after, gap)
  {
    var (mem', act) := Observe(mem, m.sight, m.now, after);
    DecisionIsSafe(m.sight.cluster, mem.stuckSince, mem.lastHandled, m.now, after);
    var d := DecideReinit(m.sight.cluster, mem.stuckSince, mem.lastHandled, m.now, after);
    assert forall x | x in d.stuckSince :: d.stuckSince[x] == m.now;
    HealthyReplicaLiftsGuard(m.sight.cluster);
    AheadIsSmaller(mem', group, u);
    LevelsNonNegative(|group| - 1 - |Ahead(mem', group, u)|, Turn(gap));
  }

  /** While u waits, a tick either serves u, or serves somebody ahead of u, or comes too early to serve anybody. */
  lemma TickWhileWaiting(
      mem: Memory, m: Moment, start: Time, last: Time, latest: Time, group: set<string>, u: string, after: int, gap: int)
    requires Waiting(mem, start, last, latest, group, u, after, gap) && TermTick(m, group, u, after)
    requires after > 0 && last <= m.now <= last + gap
    ensures var (mem', act) := Observe(mem, m.sight, m.now, after);
            match act
            case Alerted(_) => false
            case Recloned(x) =>
              x == u || (x in Ahead(mem, group, u) && Waiting(mem', start, m.now, m.now, group, u, after, gap))
            case Nothing => Waiting(mem', start, m.now, latest, group, u, after, gap)
  {
    var c := m.sight.cluster;
    var d := DecideReinit(c, mem.stuckSince, mem.lastHandled, m.now, after);
    SeriesGoOn(mem, m, start, last, latest, group, u, after, gap);
    if d.target.Some? {
      OtherServed(mem, m, start, last, latest, group, u, after, gap);
    } else {
      NobodyServed(mem, m, start, last, latest, group, u, after, gap);
    }
  }

  /** A tick never alerts, and leaves u's series running from its start. */
  lemma SeriesGoOn(
      mem: Memory, m: Moment, start: Time, last: Time, latest: Time, group: set<string>, u: string, after: int, gap: int)
    requires Waiting(mem, start, last, latest, group, u, after, gap) && TermTick(m, group, u, after) && last <= m.now
    ensures var d := DecideReinit(m.sight.cluster, mem.stuckSince, mem.lastHandled, m.now, after);
            && d.blocked == []
            && d.stuckSince == SinceMap(StuckIn(m.sight.cluster), mem.stuckSince, m.now)
            && u in d.stuckSince && d.stuckSince[u] == start
            && forall x | x in d.stuckSince :: d.stuckSince[x] >= start
  {
    HealthyReplicaLiftsGuard(m.sight.cluster);
  }

  lemma OtherServed(
      mem: Memory, m: Moment, start: Time, last: Time, latest: Time, group: set<string>, u: string, after: int, gap: int)
    requires Waiting(mem, start, last, latest, group, u, after, gap) && TermTick(m, group, u, after)
    requires after > 0 && last <= m.now <= last + gap
    requires DecideReinit(m.sight.cluster, mem.stuckSince, mem.lastHandled, m.now, after).target.Some?
    ensures var d := DecideReinit(m.sight.cluster, mem.stuckSince, mem.lastHandled, m.now, after);
            var x := d.target.value.name;
            x == u || (x in Ahead(mem, group, u)
                       && Waiting(Memory(d.stuckSince, mem.lastHandled[x := m.now]), start, m.now, m.now, group, u, after, gap))
  {
    var d := DecideReinit(m.sight.cluster, mem.stuckSince, mem.lastHandled, m.now, after);
    SeriesGoOn(mem, m, start, last, latest, group, u, after, gap);
    OtherIsAhead(mem, m, start, last, latest, group, u, after, gap);
    if d.target.value.name != u {
      WaitingAfterOther(mem, d.stuckSince, d.target.value.name, start, last, latest, group, u, after, gap, m.now);
    }
  }

  /** Whoever is served instead of u is of the group, and had as good a right as u. */
  lemma OtherIsAhead(
      mem: Memory, m: Moment, start: Time, last: Time, latest: Time, group: set<string>, u: string, after: int, gap: int)
    requires Waiting(mem, start, last, latest, group, u, after, gap) && TermTick(m, group, u, after)
    requires after > 0 && last <= m.now
    requires DecideReinit(m.sight.cluster, mem.stuckSince, mem.lastHandled, m.now, after).target.Some?
    ensures var x := DecideReinit(m.sight.cluster, mem.stuckSince, mem.lastHandled, m.now, after).target.value.name;
            x in group && !Precedes(mem.lastHandled, u, x) && !CoolingDown(mem.lastHandled, u, m.now)
  {
    var c := m.sight.cluster;
    var d := DecideReinit(c, mem.stuckSince, mem.lastHandled, m.now, after);
    DecisionIsSafe(c, mem.stuckSince, mem.lastHandled, m.now, after);
    SeriesGoOn(mem, m, start, last, latest, group, u, after, gap);
    DueBeforeU(d.stuckSince, mem.lastHandled, d.target.value.name, u, start, m.now, after);
  }

  lemma WaitingAfterOther(
      mem: Memory, since: map<string, Time>, x: string, start: Time, last: Time, latest: Time, group: set<string>,
      u: string, after: int, gap: int, now: Time)
    requires Waiting(mem, start, last, latest, group, u, after, gap) && last <= now <= last + gap && after > 0
    requires u in since && since[u] == start && forall y | y in since :: since[y] >= start
    requires x in group && x != u && !Precedes(mem.lastHandled, u, x) && !CoolingDown(mem.lastHandled, u, now)
    ensures x in Ahead(mem, group, u)
    ensures Waiting(Memory(since, mem.lastHandled[x := now]), start, now, now, group, u, after, gap)
  {
    SomebodyServed(mem, x, start, last, latest, group, u, after, gap, now);
    var next := Memory(since, mem.lastHandled[x := now]);
    assert Ahead(next, group, u) == Ahead(mem.(lastHandled := mem.lastHandled[x := now]), group, u);
  }

  /** u has been stuck longest: when another member is due, so is u unless it cools down. */
  lemma DueBeforeU(since: map<string, Time>, lastHandled: map<string, Time>, x: string, u: string, start: Time, now: Time,
                   after: int)
    requires u in since && since[u] == start && forall y | y in since :: since[y] >= start
    requires IsDue(since, lastHandled, x, now, after) && !CoolingDown(lastHandled, u, now)
    ensures IsDue(since, lastHandled, u, now, after)
  {
  }

  /** A tick that serves nobody comes too early: u is not due, or the last one handled is still cooling down. */
  lemma NobodyServed(
      mem: Memory, m: Moment, start: Time, last: Time, latest: Time, group: set<string>, u: string, after: int, gap: int)
    requires Waiting(mem, start, last, latest, group, u, after, gap) && TermTick(m, group, u, after)
    requires after > 0 && last <= m.now
    requires DecideReinit(m.sight.cluster, mem.stuckSince, mem.lastHandled, m.now, after).target.None?
    ensures m.now < Max(start + after, latest + REINIT_COOLDOWN)
  {
    var c := m.sight.cluster;
    if m.now >= start + after && m.now >= latest + REINIT_COOLDOWN {
      DueIsServed(c, mem.stuckSince, mem.lastHandled, m.now, after, u);
    }
  }

  lemma SomebodyServed(
      mem: Memory, x: string, start: Time, last: Time, latest: Time, group: set<string>, u: string, after: int, gap: int,
      now: Time)
    requires Waiting(mem, start, last, latest, group, u, after, gap) && last <= now <= last + gap && after > 0
    requires x in group && x != u && !Precedes(mem.lastHandled, u, x) && !CoolingDown(mem.lastHandled, u, now)
    ensures var handled := mem.(lastHandled := mem.lastHandled[x := now]);
            && x in Ahead(mem, group, u)
            && Ahead(handled, group, u) == Ahead(mem, group, u) - {x}
            && now <= start + after + Levels(|group| - 1 - |Ahead(handled, group, u)|, Turn(gap))
  {
    var handled := mem.(lastHandled := mem.lastHandled[x := now]);
    var before, after' := Ahead(mem, group, u), Ahead(handled, group, u);
    assert after' == before - {x};
    assert |after'| == |before| - 1;
    LevelsNonNegative(|group| - 1 - |before|, Turn(gap));
  }

  ghost predicate NotServed(acts: seq<Action>, u: string, k: nat)
    requires k <= |acts|
  {
    forall j | 0 <= j < k :: acts[j] != Recloned(u)
  }

  lemma {:induction false} WaitsItsTurn(
      mems: seq<Memory>, acts: seq<Action>, run: seq<Moment>, group: set<string>, u: string, after: int, gap: int, k: nat)
    returns (latest: Time)
    requires IsTerm(mems, acts, run, group, u, after, gap) && after > 0 && gap >= 0
    requires 0 < k <= |run| && NotServed(acts, u, k)
    ensures Waiting(mems[k], run[0].now, run[k - 1].now, latest, group, u, after, gap)
  {
    assert Stepped(mems, acts, run, k - 1);
    if k == 1 {
      latest := run[0].now;
      TermStarts(mems[0], run[0], group, u, after, gap);
    } else {
      latest := WaitsItsTurn(mems, acts, run, group, u, after, gap, k - 1);
      TickWhileWaiting(mems[k - 1], run[k - 1], run[0].now, run[k - 2].now, latest, group, u, after, gap);
      if acts[k - 1].Recloned? {
        latest := run[k - 1].now;
      }
    }
  }

  /** Fairness: while at most |group| members are ever stuck, one that stays stuck is re-cloned within
      after + |group| * (60 min + tick gap) of the start of the term. */
  lemma StuckMemberIsServed(
      mems: seq<Memory>, acts: seq<Action>, run: seq<Moment>, group: set<string>, u: string, after: int, gap: int, k: nat)
    requires IsTerm(mems, acts, run, group, u, after, gap) && after > 0 && gap >= 0 && k < |run|
    requires run[k].now >= run[0].now + after + |group| * Turn(gap)
    ensures exists j | 0 <= j <= k :: acts[j] == Recloned(u)
  {
    if NotServed(acts, u, k + 1) {
      var latest := WaitsItsTurn(mems, acts, run, group, u, after, gap, k + 1);
      LevelsIsProduct(|group|, Turn(gap));
      var ahead := |Ahead(mems[k + 1], group, u)|;
      LevelsGrow(|group| - 1 - ahead, |group| - 1, Turn(gap));
      LevelsNonNegative(|group| - 1, Turn(gap));
      assert false;
    }
  }
}
