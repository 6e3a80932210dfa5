/** What a look at the cluster makes the re-cloning monitor do, exactly; and the alert when every replica is stuck. */
module ReinitAlerts {
  import opened Basics
  import opened ReplicaReinit
  import opened ReinitRuns

  // ----- the cluster, in words -----

  /** The first member with the role. */
  ghost predicate Leads(c: Cluster, l: Member) {
    exists i | 0 <= i < |c.members| ::
      c.members[i] == l && l.role == Leader && forall j | 0 <= j < i :: c.members[j].role != Leader
  }

  /** A leader that runs, and no maintenance. */
  ghost predicate Runs(c: Cluster, l: Member) { !c.paused && Leads(c, l) && l.state == "running" }

  ghost predicate Follows(m: Member) { m.role == Replica || m.role == SyncStandby }

  /** Not streaming, or on an older timeline than the leader's, both being known. */
  ghost predicate Lags(m: Member, l: Member) {
    || m.state != "streaming"
    || (m.timeline.Some? && l.timeline.Some? && m.timeline.value < l.timeline.value)
  }

  ghost predicate Behind(c: Cluster, l: Member, name: string) {
    exists m :: m in c.members && m.name == name && Follows(m) && Lags(m, l)
  }

  ghost predicate AllBehind(c: Cluster, l: Member) { forall m | m in c.members && Follows(m) :: Lags(m, l) }

  /** Handled less than an hour ago. */
  ghost predicate Resting(mem: Memory, name: string, now: Time) {
    name in mem.lastHandled && now - mem.lastHandled[name] < 60 * MINUTE
  }

  /** Behind for long enough, this look included, and not resting. */
  ghost predicate Overdue(mem: Memory, m: Moment, name: string) {
    && m.now - (if name in mem.stuckSince then mem.stuckSince[name] else m.now) >= m.after
    && !Resting(mem, name, m.now)
  }

  lemma {:induction false} LeaderIs(members: seq<Member>)
    ensures match FindLeader(members)
            case Some(l) => exists i | 0 <= i < |members| ::
              members[i] == l && l.role == Leader && forall j | 0 <= j < i :: members[j].role != Leader
            case None => forall m | m in members :: m.role != Leader
  {
    if members != [] && members[0].role != Leader {
      var rest := members[1..];
      LeaderIs(rest);
      var l := FindLeader(rest);
      if l.Some? {
        var i :| 0 <= i < |rest| && rest[i] == l.value && forall j | 0 <= j < i :: rest[j].role != Leader;
        assert members[i + 1] == l.value;
        forall j | 0 <= j < i + 1 ensures members[j].role != Leader {
          assert j > 0 ==> members[j] == rest[j - 1];
        }
      }
    }
  }

  lemma LeadsExactly(c: Cluster, l: Member)
    ensures Leads(c, l) <==> FindLeader(c.members) == Some(l)
    ensures Runs(c, l) ==> Settled(c) && LeaderTimeline(c) == l.timeline
  {
    LeaderIs(c.members);
    if FindLeader(c.members).Some? {
      var f := FindLeader(c.members).value;
      var i :| 0 <= i < |c.members| && c.members[i] == f && f.role == Leader
               && forall j | 0 <= j < i :: c.members[j].role != Leader;
      if Leads(c, l) {
        var k :| 0 <= k < |c.members| && c.members[k] == l && l.role == Leader
                 && forall j | 0 <= j < k :: c.members[j].role != Leader;
        assert !(i < k) && !(k < i);
      }
    } else {
      forall i | 0 <= i < |c.members| ensures c.members[i].role != Leader {
        assert c.members[i] in c.members;
      }
    }
  }

  lemma SettledRuns(c: Cluster) returns (l: Member)
    requires Settled(c)
    ensures Runs(c, l)
  {
    l := FindLeader(c.members).value;
    LeadsExactly(c, l);
  }

  lemma {:induction false} StuckMemberFound(replicas: seq<Member>, timeline: Option<int>, name: string)
    ensures StuckMember(replicas, timeline, name).Some? <==>
            exists m :: m in replicas && m.name == name && IsStuck(m, timeline)
  {
    if replicas != [] {
      var k := |replicas| - 1;
      assert replicas == replicas[..k] + [replicas[k]];
      StuckMemberFound(replicas[..k], timeline, name);
    }
  }

  lemma StuckAreBehind(c: Cluster, l: Member)
    requires Runs(c, l)
    ensures forall name :: name in StuckIn(c) <==> Behind(c, l, name)
    ensures HasHealthyReplica(c) <==> !AllBehind(c, l)
  {
    LeadsExactly(c, l);
    ReplicasAre(c.members);
    StuckNamesAre(Replicas(c.members), l.timeline);
    forall name ensures name in StuckIn(c) <==> Behind(c, l, name) {
      StuckMemberFound(Replicas(c.members), l.timeline, name);
      if Behind(c, l, name) {
        var m :| m in c.members && m.name == name && Follows(m) && Lags(m, l);
        assert m in Replicas(c.members) && IsStuck(m, l.timeline);
      }
    }
  }

  ghost predicate NoRepeat(names: seq<string>) { forall i, j | 0 <= i < j < |names| :: names[i] != names[j] }

  lemma NoRepeatOn(names: seq<string>, name: string)
    requires NoRepeat(names) && name !in names
    ensures NoRepeat(names + [name])
  {
  }

  lemma {:induction false} StuckNamesDistinct(replicas: seq<Member>, timeline: Option<int>)
    ensures NoRepeat(StuckNames(replicas, timeline))
  {
    if replicas != [] {
      var k := |replicas| - 1;
      StuckNamesDistinct(replicas[..k], timeline);
      if replicas[k].name !in StuckNames(replicas[..k], timeline) {
        NoRepeatOn(StuckNames(replicas[..k], timeline), replicas[k].name);
      }
    }
  }

  lemma {:induction false} DueNamesDistinct(
      stuck: seq<string>, since: map<string, Time>, lastHandled: map<string, Time>, now: Time, after: int)
    requires NoRepeat(stuck)
    ensures NoRepeat(DueNames(stuck, since, lastHandled, now, after))
  {
    if stuck != [] {
      var k := |stuck| - 1;
      DueNamesDistinct(stuck[..k], since, lastHandled, now, after);
      assert stuck[k] !in stuck[..k];
      NoRepeatOn(DueNames(stuck[..k], since, lastHandled, now, after), stuck[k]);
    }
  }

  // ----- one look -----

  /** Somebody has to be handled at this look. */
  ghost predicate SomebodyOverdue(mem: Memory, m: Moment, c: Cluster, l: Member) {
    exists name :: Behind(c, l, name) && Overdue(mem, m, name)
  }

  lemma DueIsOverdue(mem: Memory, m: Moment, c: Cluster, l: Member)
    requires m.sight == Seen(c) && Runs(c, l)
    ensures var since := SinceMap(StuckIn(c), mem.stuckSince, m.now);
            var due := DueNames(StuckIn(c), since, mem.lastHandled, m.now, m.after);
            && NoRepeat(due)
            && (forall name :: name in due <==> Behind(c, l, name) && Overdue(mem, m, name))
            && (due != [] <==> SomebodyOverdue(mem, m, c, l))
  {
    StuckAreBehind(c, l);
    StuckNamesDistinct(Replicas(c.members), LeaderTimeline(c));
    var stuck := StuckIn(c);
    var since := SinceMap(stuck, mem.stuckSince, m.now);
    DueNamesDistinct(stuck, since, mem.lastHandled, m.now, m.after);
    var due := DueNames(stuck, since, mem.lastHandled, m.now, m.after);
    forall name ensures name in due <==> Behind(c, l, name) && Overdue(mem, m, name) {
      DueMeansOverdue(mem, m, stuck, name);
    }
    assert due != [] ==> due[0] in due;
  }

  lemma DueMeansOverdue(mem: Memory, m: Moment, stuck: seq<string>, name: string)
    ensures name in stuck ==>
              (IsDue(SinceMap(stuck, mem.stuckSince, m.now), mem.lastHandled, name, m.now, m.after)
               <==> Overdue(mem, m, name))
  {
  }

  /** When a look raises the alert, and whom it names: a leader runs, no replica follows it, and somebody has been
      behind for long enough; exactly those are named, once each. */
  lemma AlertExactlyWhen(mem: Memory, m: Moment, c: Cluster, l: Member)
    requires m.sight == Seen(c) && Runs(c, l) && DistinctNames(c.members)
    ensures var act := Observe(mem, m.sight, m.now, m.after).1;
            && (act.Alerted? <==> AllBehind(c, l) && SomebodyOverdue(mem, m, c, l))
            && (act.Alerted? ==> NoRepeat(act.names)
                                 && forall name :: name in act.names <==> Behind(c, l, name) && Overdue(mem, m, name))
  {
    LeadsExactly(c, l);
    StuckAreBehind(c, l);
    GuardMeansNoHealthyReplica(c);
    DueIsOverdue(mem, m, c, l);
  }

  /** When a look re-clones, and whom: some replica follows the leader, nobody behind is resting, and somebody has been
      behind for long enough; of those, one never handled if there is any, else the one handled longest ago. */
  lemma RecloneExactlyWhen(mem: Memory, m: Moment, c: Cluster, l: Member)
    requires m.sight == Seen(c) && Runs(c, l) && DistinctNames(c.members)
    ensures var act := Observe(mem, m.sight, m.now, m.after).1;
            && (act.Recloned? <==> && !AllBehind(c, l) && SomebodyOverdue(mem, m, c, l)
                                   && forall name | Behind(c, l, name) :: !Resting(mem, name, m.now))
            && (act.Recloned? ==>
                  && Behind(c, l, act.name) && Overdue(mem, m, act.name)
                  && forall name | Behind(c, l, name) && Overdue(mem, m, name) && act.name in mem.lastHandled ::
                       name in mem.lastHandled && mem.lastHandled[name] >= mem.lastHandled[act.name])
  {
    LeadsExactly(c, l);
    StuckAreBehind(c, l);
    GuardMeansNoHealthyReplica(c);
    DueIsOverdue(mem, m, c, l);
    StuckNamesAre(Replicas(c.members), LeaderTimeline(c));
    DecisionIsSafe(c, mem.stuckSince, mem.lastHandled, m.now, m.after);
  }

  /** Without a look, or without a running leader, or during maintenance, nothing is done. */
  lemma NothingUnlessRunning(mem: Memory, m: Moment)
    requires m.sight.Seen? ==> forall l :: !Runs(m.sight.cluster, l)
    ensures Observe(mem, m.sight, m.now, m.after).1 == Nothing
  {
    if m.sight.Seen? && Settled(m.sight.cluster) {
      var l := SettledRuns(m.sight.cluster);
      assert false;
    }
  }

  // ----- every replica behind, throughout -----

  /** A look at a running leader that no replica follows, u among them. */
  ghost predicate OutageTick(m: Moment, u: string, after: int) {
    && m.after == after && m.sight.Seen? && DistinctNames(m.sight.cluster.members)
    && exists l :: Runs(m.sight.cluster, l) && AllBehind(m.sight.cluster, l) && Behind(m.sight.cluster, l, u)
  }

  /** A leader's term, from an empty series, in which no replica ever follows it. */
  ghost predicate IsOutage(mems: seq<Memory>, acts: seq<Action>, run: seq<Moment>, u: string, after: int) {
    && IsRun(mems, acts, run) && TimeFlows(run)
    && mems[0].stuckSince == map[]
    && forall k | 0 <= k < |run| :: OutageTick(run[k], u, after)
  }

  /** A look keeps the start of the series of whoever is behind. */
  lemma SeriesGoesOn(mem: Memory, m: Moment, c: Cluster, l: Member, u: string)
    requires m.sight == Seen(c) && Runs(c, l) && Behind(c, l, u)
    ensures var mem' := Observe(mem, m.sight, m.now, m.after).0;
            u in mem'.stuckSince && mem'.stuckSince[u] == if u in mem.stuckSince then mem.stuckSince[u] else m.now
  {
    LeadsExactly(c, l);
    StuckAreBehind(c, l);
    SinceAfterLook(mem, c, m.now, m.after);
  }

  lemma SinceAfterLook(mem: Memory, c: Cluster, now: Time, after: int)
    requires Settled(c)
    ensures Observe(mem, Seen(c), now, after).0.stuckSince == SinceMap(StuckIn(c), mem.stuckSince, now)
  {
  }

  lemma OutageStep(mem: Memory, m: Moment, u: string, after: int)
    requires OutageTick(m, u, after)
    ensures var (mem', act) := Observe(mem, m.sight, m.now, m.after);
            && u in mem'.stuckSince
            && mem'.stuckSince[u] == (if u in mem.stuckSince then mem.stuckSince[u] else m.now)
            && !act.Recloned?
            && (Overdue(mem, m, u) ==> act.Alerted? && u in act.names)
  {
    var c := m.sight.cluster;
    var l :| Runs(c, l) && AllBehind(c, l) && Behind(c, l, u);
    SeriesGoesOn(mem, m, c, l, u);
    AlertExactlyWhen(mem, m, c, l);
    RecloneExactlyWhen(mem, m, c, l);
  }

  lemma {:induction false} SeriesFromTheStart(
      mems: seq<Memory>, acts: seq<Action>, run: seq<Moment>, u: string, after: int, k: nat)
    requires IsOutage(mems, acts, run, u, after) && k < |run|
    ensures u in mems[k + 1].stuckSince && mems[k + 1].stuckSince[u] == run[0].now
  {
    if k > 0 {
      SeriesFromTheStart(mems, acts, run, u, after, k - 1);
    }
    assert Stepped(mems, acts, run, k);
    OutageStep(mems[k], run[k], u, after);
  }

  /** The alert of tick j names u. */
  ghost predicate AlertedAt(acts: seq<Action>, u: string, j: nat) {
    j < |acts| && acts[j].Alerted? && u in acts[j].names
  }

  /** Where the instant u was last handled comes from. */
  lemma {:induction false} HandledFrom(mems: seq<Memory>, acts: seq<Action>, run: seq<Moment>, u: string, after: int, k: nat)
    requires IsOutage(mems, acts, run, u, after) && k <= |run| && u in mems[k].lastHandled
    ensures (u in mems[0].lastHandled && mems[k].lastHandled[u] == mems[0].lastHandled[u])
            || exists j | 0 <= j < k :: AlertedAt(acts, u, j) && mems[k].lastHandled[u] == run[j].now
  {
    if k > 0 {
      assert Stepped(mems, acts, run, k - 1);
      ObserveHandles(mems[k - 1], run[k - 1].sight, run[k - 1].now, run[k - 1].after);
      OutageStep(mems[k - 1], run[k - 1], u, after);
      if ActsOn(acts[k - 1], u) {
        assert AlertedAt(acts, u, k - 1);
      } else {
        HandledFrom(mems, acts, run, u, after, k - 1);
      }
    }
  }

  /** While no replica follows the leader, nobody is forgotten: at every tick at least `after` into the term, and at
      least an hour after what the term began with, each replica has been named by an alert of the last hour. */
  lemma EveryReplicaIsAlerted(mems: seq<Memory>, acts: seq<Action>, run: seq<Moment>, u: string, after: int, k: nat)
    requires IsOutage(mems, acts, run, u, after) && k < |run|
    requires run[k].now >= run[0].now + after
    requires u in mems[0].lastHandled ==> run[k].now >= mems[0].lastHandled[u] + 60 * MINUTE
    ensures exists j | 0 <= j <= k :: AlertedAt(acts, u, j) && run[k].now - run[j].now < 60 * MINUTE
  {
    assert Stepped(mems, acts, run, k);
    OutageStep(mems[k], run[k], u, after);
    if k > 0 {
      SeriesFromTheStart(mems, acts, run, u, after, k - 1);
    }
    if Resting(mems[k], u, run[k].now) {
      HandledFrom(mems, acts, run, u, after, k);
    } else {
      assert AlertedAt(acts, u, k);
    }
  }
}
