/** Automatic re-cloning of stuck Patroni replicas: the decision of one tick, and the leader's memory. */
module ReplicaReinit {
  import opened Basics

  datatype Role = Leader | Replica | SyncStandby | OtherRole

  datatype Member = Member(name: string, role: Role, state: string, timeline: Option<int>)

  datatype Cluster = Cluster(members: seq<Member>, paused: bool)

  /** What the caller keeps: since when each stuck member has been stuck, and when each was last handled. */
  datatype Decision = Decision(stuckSince: map<string, Time>, target: Option<Member>, blocked: seq<string>)

  const REINIT_COOLDOWN: int := 60 * MINUTE
  const STREAMING := "streaming"
  const RUNNING := "running"

  predicate IsReplica(m: Member) { m.role == Replica || m.role == SyncStandby }

  predicate IsStuck(m: Member, leaderTimeline: Option<int>) {
    || m.state != STREAMING
    || (m.timeline.Some? && leaderTimeline.Some? && m.timeline.value < leaderTimeline.value)
  }

  function FindLeader(members: seq<Member>): Option<Member> {
    if members == [] then None
    else if members[0].role == Leader then Some(members[0])
    else FindLeader(members[1..])
  }

  /** The states of the replicas mean something: a running leader, and no maintenance going on. */
  predicate Settled(c: Cluster) {
    && !c.paused
    && var leader := FindLeader(c.members);
       leader.Some? && leader.value.state == RUNNING
  }

  function LeaderTimeline(c: Cluster): Option<int> {
    var leader := FindLeader(c.members);
    if leader.Some? then leader.value.timeline else None
  }

  function Replicas(members: seq<Member>): seq<Member> {
    if members == [] then []
    else
      var k := |members| - 1;
      Replicas(members[..k]) + if IsReplica(members[k]) then [members[k]] else []
  }

  /** Names of the stuck replicas in the order of a dictionary: first appearance. */
  function StuckNames(replicas: seq<Member>, timeline: Option<int>): seq<string> {
    if replicas == [] then []
    else
      var k := |replicas| - 1;
      var before, m := StuckNames(replicas[..k], timeline), replicas[k];
      if IsStuck(m, timeline) && m.name !in before then before + [m.name] else before
  }

  /** The dictionary's value: the last stuck replica of that name. */
  function StuckMember(replicas: seq<Member>, timeline: Option<int>, name: string): (r: Option<Member>)
    ensures r.Some? ==> r.value.name == name && r.value in replicas && IsStuck(r.value, timeline)
  {
    if replicas == [] then None
    else
      var k := |replicas| - 1;
      if IsStuck(replicas[k], timeline) && replicas[k].name == name then Some(replicas[k])
      else StuckMember(replicas[..k], timeline, name)
  }

  function StuckIn(c: Cluster): seq<string> { StuckNames(Replicas(c.members), LeaderTimeline(c)) }

  function SinceMap(stuck: seq<string>, stuckSince: map<string, Time>, now: Time): map<string, Time> {
    map name | name in stuck :: if name in stuckSince then stuckSince[name] else now
  }

  predicate CoolingDown(lastHandled: map<string, Time>, name: string, now: Time) {
    name in lastHandled && now - lastHandled[name] < REINIT_COOLDOWN
  }

  predicate IsDue(since: map<string, Time>, lastHandled: map<string, Time>, name: string, now: Time, after: int) {
    name in since && now - since[name] >= after && !CoolingDown(lastHandled, name, now)
  }

  function DueNames(
      stuck: seq<string>, since: map<string, Time>, lastHandled: map<string, Time>, now: Time, after: int): (r: seq<string>)
    ensures forall x :: x in r <==> x in stuck && IsDue(since, lastHandled, x, now, after)
  {
    if stuck == [] then []
    else
      var k := |stuck| - 1;
      assert stuck == stuck[..k] + [stuck[k]];
      DueNames(stuck[..k], since, lastHandled, now, after)
      + if IsDue(since, lastHandled, stuck[k], now, after) then [stuck[k]] else []
  }

  /** Never handled comes before handled, and an older handling before a newer one. */
  predicate Precedes(lastHandled: map<string, Time>, x: string, y: string) {
    || (x !in lastHandled && y in lastHandled)
    || (x in lastHandled && y in lastHandled && lastHandled[x] < lastHandled[y])
  }

  /** The first of the names that nothing precedes. */
  function FirstInLine(names: seq<string>, lastHandled: map<string, Time>): (r: string)
    requires names != []
    ensures r in names
    ensures forall x | x in names :: !Precedes(lastHandled, x, r)
  {
    var k := |names| - 1;
    if k == 0 then names[0]
    else
      assert names == names[..k] + [names[k]];
      var best := FirstInLine(names[..k], lastHandled);
      if Precedes(lastHandled, names[k], best) then names[k] else best
  }

  /** Among equals the earliest name is chosen: the choice precedes everything before it. */
  lemma {:induction false} FirstInLineIsEarliest(names: seq<string>, lastHandled: map<string, Time>) returns (i: nat)
    requires names != []
    ensures i < |names| && names[i] == FirstInLine(names, lastHandled)
    ensures forall j | 0 <= j < i :: Precedes(lastHandled, names[i], names[j])
  {
    var k := |names| - 1;
    i := k;
    if k > 0 {
      var best := FirstInLineIsEarliest(names[..k], lastHandled);
      if Precedes(lastHandled, names[k], names[best]) {
        forall j | 0 <= j < k ensures Precedes(lastHandled, names[k], names[j]) {
          assert names[..k][j] == names[j] && names[j] in names[..k];
        }
      } else {
        i := best;
      }
    }
  }

  function DecideReinit(
      c: Cluster, stuckSince: map<string, Time>, lastHandled: map<string, Time>, now: Time, after: int): Decision
  {
    if !Settled(c) then Decision(map[], None, [])
    else
      var replicas, timeline := Replicas(c.members), LeaderTimeline(c);
      var stuck := StuckIn(c);
      var since := SinceMap(stuck, stuckSince, now);
      var due := DueNames(stuck, since, lastHandled, now, after);
      if due == [] then Decision(since, None, [])
      else if |stuck| == |replicas| then Decision(since, None, due)
      else if exists name | name in stuck :: CoolingDown(lastHandled, name, now) then Decision(since, None, [])
      else Decision(since, StuckMember(replicas, timeline, FirstInLine(due, lastHandled)), [])
  }

  // ----- the stuck replicas, as a set -----

  /** Some replica follows the leader. */
  ghost predicate HasHealthyReplica(c: Cluster) {
    exists m | m in c.members :: IsReplica(m) && !IsStuck(m, LeaderTimeline(c))
  }

  lemma {:induction false} ReplicasAre(members: seq<Member>)
    ensures forall m :: m in Replicas(members) <==> m in members && IsReplica(m)
  {
    if members != [] {
      var k := |members| - 1;
      assert members == members[..k] + [members[k]];
      ReplicasAre(members[..k]);
    }
  }

  lemma {:induction false} StuckNamesAre(replicas: seq<Member>, timeline: Option<int>)
    ensures forall x :: x in StuckNames(replicas, timeline) <==> StuckMember(replicas, timeline, x).Some?
    ensures |StuckNames(replicas, timeline)| <= |replicas|
    ensures |StuckNames(replicas, timeline)| == |replicas| ==> forall m | m in replicas :: IsStuck(m, timeline)
  {
    if replicas != [] {
      var k := |replicas| - 1;
      assert replicas == replicas[..k] + [replicas[k]];
      StuckNamesAre(replicas[..k], timeline);
    }
  }

  ghost predicate DistinctNames(members: seq<Member>) {
    forall i, j | 0 <= i < j < |members| :: members[i].name != members[j].name
  }

  lemma {:induction false} AllStuckFills(replicas: seq<Member>, timeline: Option<int>)
    requires DistinctNames(replicas) && forall m | m in replicas :: IsStuck(m, timeline)
    ensures |StuckNames(replicas, timeline)| == |replicas|
    ensures forall x | x in StuckNames(replicas, timeline) :: exists m | m in replicas :: m.name == x
  {
    if replicas != [] {
      var k := |replicas| - 1;
      assert replicas == replicas[..k] + [replicas[k]];
      AllStuckFills(replicas[..k], timeline);
      assert replicas[k] in replicas;
      forall x | x in StuckNames(replicas, timeline) ensures exists m | m in replicas :: m.name == x {
        if x != replicas[k].name {
          var m :| m in replicas[..k] && m.name == x;
          assert m in replicas;
        }
      }
    }
  }

  lemma {:induction false} ReplicasDistinct(members: seq<Member>)
    requires DistinctNames(members)
    ensures DistinctNames(Replicas(members))
  {
    if members != [] {
      var k := |members| - 1;
      ReplicasDistinct(members[..k]);
      ReplicasAre(members[..k]);
      var rs := Replicas(members[..k]);
      forall i | 0 <= i < |rs| ensures rs[i].name != members[k].name {
        assert rs[i] in rs;
        var j :| 0 <= j < k && members[j] == rs[i];
      }
    }
  }

  /** The guard compares two lengths; with distinct member names it holds exactly when no replica is healthy. */
  lemma GuardMeansNoHealthyReplica(c: Cluster)
    requires DistinctNames(c.members)
    ensures |StuckIn(c)| == |Replicas(c.members)| <==> !HasHealthyReplica(c)
  {
    ReplicasAre(c.members);
    StuckNamesAre(Replicas(c.members), LeaderTimeline(c));
    ReplicasDistinct(c.members);
    if !HasHealthyReplica(c) {
      AllStuckFills(Replicas(c.members), LeaderTimeline(c));
    }
  }

  /** One healthy replica is enough to lift the guard, whatever the names. */
  lemma HealthyReplicaLiftsGuard(c: Cluster)
    requires HasHealthyReplica(c)
    ensures |StuckIn(c)| < |Replicas(c.members)|
  {
    ReplicasAre(c.members);
    StuckNamesAre(Replicas(c.members), LeaderTimeline(c));
  }

  /** What a decision to act guarantees about the very snapshot it was taken on. */
  lemma DecisionIsSafe(c: Cluster, stuckSince: map<string, Time>, lastHandled: map<string, Time>, now: Time, after: int)
    ensures var d := DecideReinit(c, stuckSince, lastHandled, now, after);
            && (d.target.Some? ==> d.blocked == [])
            && (forall x | x in d.blocked ::
                  Settled(c) && x in StuckIn(c) && x in d.stuckSince && IsDue(d.stuckSince, lastHandled, x, now, after))
            && (d.target.Some? ==>
                  var t := d.target.value;
                  && Settled(c) && t in c.members && IsReplica(t) && IsStuck(t, LeaderTimeline(c))
                  && |StuckIn(c)| < |Replicas(c.members)|
                  && (DistinctNames(c.members) ==> HasHealthyReplica(c))
                  && t.name in StuckIn(c) && t.name in d.stuckSince
                  && IsDue(d.stuckSince, lastHandled, t.name, now, after)
                  && (forall x | x in StuckIn(c) :: !CoolingDown(lastHandled, x, now))
                  && (forall x | x in StuckIn(c) && IsDue(d.stuckSince, lastHandled, x, now, after) ::
                        !Precedes(lastHandled, x, t.name)))
  {
    ReplicasAre(c.members);
    StuckNamesAre(Replicas(c.members), LeaderTimeline(c));
    if DistinctNames(c.members) {
      GuardMeansNoHealthyReplica(c);
    }
  }

  /** With a healthy replica, a due member and nobody cooling down, somebody is chosen. */
  lemma DueIsServed(c: Cluster, stuckSince: map<string, Time>, lastHandled: map<string, Time>, now: Time, after: int, x: string)
    requires Settled(c) && HasHealthyReplica(c) && x in StuckIn(c)
    requires IsDue(SinceMap(StuckIn(c), stuckSince, now), lastHandled, x, now, after)
    requires forall y | y in StuckIn(c) :: !CoolingDown(lastHandled, y, now)
    ensures DecideReinit(c, stuckSince, lastHandled, now, after).target.Some?
  {
    HealthyReplicaLiftsGuard(c);
    StuckNamesAre(Replicas(c.members), LeaderTimeline(c));
    var due := DueNames(StuckIn(c), SinceMap(StuckIn(c), stuckSince, now), lastHandled, now, after);
    assert x in due;
  }

  // ----- the leader's memory -----

  datatype Memory = Memory(stuckSince: map<string, Time>, lastHandled: map<string, Time>)

  /** What the monitor sees at a tick. */
  datatype Sight = NotLeader | Unreachable | Seen(cluster: Cluster)

  datatype Action = Nothing | Alerted(names: seq<string>) | Recloned(name: string)

  function Handle(lastHandled: map<string, Time>, names: seq<string>, now: Time): map<string, Time> {
    map x | x in lastHandled.Keys + (set n | n in names) :: if x in names then now else lastHandled[x]
  }

  function Observe(mem: Memory, sight: Sight, now: Time, after: int): (Memory, Action) {
    match sight
    case NotLeader => (mem.(stuckSince := map[]), Nothing)
    case Unreachable => (mem, Nothing)
    case Seen(c) =>
      var d := DecideReinit(c, mem.stuckSince, mem.lastHandled, now, after);
      if d.blocked != [] then (Memory(d.stuckSince, Handle(mem.lastHandled, d.blocked, now)), Alerted(d.blocked))
      else if d.target.Some? then
        (Memory(d.stuckSince, mem.lastHandled[d.target.value.name := now]), Recloned(d.target.value.name))
      else (Memory(d.stuckSince, mem.lastHandled), Nothing)
  }

  class ReplicaMonitor {
    var stuckSince: map<string, Time>
    var lastHandled: map<string, Time>

    function Remembered(): Memory
      reads this
    {
      Memory(stuckSince, lastHandled)
    }

    constructor ()
      ensures Remembered() == Memory(map[], map[])
    {
      stuckSince, lastHandled := map[], map[];
    }

    method HandleAll(names: seq<string>, now: Time)
      modifies this`lastHandled
      ensures lastHandled == Handle(old(lastHandled), names, now)
    {
      for i := 0 to |names|
        invariant lastHandled == Handle(old(lastHandled), names[..i], now)
      {
        assert names[..i + 1] == names[..i] + [names[i]];
        lastHandled := lastHandled[names[i] := now];
      }
      assert names[..|names|] == names;
    }

    method Tick(sight: Sight, now: Time, after: int) returns (action: Action)
      modifies this
      ensures (Remembered(), action) == Observe(old(Remembered()), sight, now, after)
    {
      match sight {
        case NotLeader =>
          stuckSince := map[];
          return Nothing;
        case Unreachable =>
          return Nothing;
        case Seen(c) =>
          var d := DecideReinit(c, stuckSince, lastHandled, now, after);
          stuckSince := d.stuckSince;
          if d.blocked != [] {
            HandleAll(d.blocked, now);
            return Alerted(d.blocked);
          }
          if d.target.None? {
            return Nothing;
          }
          lastHandled := lastHandled[d.target.value.name := now];
          return Recloned(d.target.value.name);
      }
    }
  }
}
