/** Relaying a write from a replica to the leader: routing, the peers tried in turn, and who executes the write. */
module WriteRelay {
  import opened Basics

  // ----- which requests are relayed -----

  const WRITE_METHODS: set<string> := {"POST", "PUT", "PATCH", "DELETE"}
  const EXCLUDED_EXACT: set<string> := {"/api/devices/heartbeat"}
  const EXCLUDED_PREFIXES: seq<string> := ["/api/test/", "/api/deployments/"]

  predicate IsProxyableWrite(verb: string, path: string) {
    && verb in WRITE_METHODS
    && "/api/" <= path
    && path !in EXCLUDED_EXACT
    && !exists i | 0 <= i < |EXCLUDED_PREFIXES| :: EXCLUDED_PREFIXES[i] <= path
  }

  /** A request as the relay sees it; proxied says that it carries the relay's own mark. */
  datatype Request = Request(verb: string, path: string, proxied: bool)

  datatype Route = Local | Decline | Relay

  /** What a node does with a request that reaches it. */
  function Dispatch(request: Request, isLeader: bool, relaying: bool): Route {
    if !IsProxyableWrite(request.verb, request.path) then Local
    else if isLeader then Local
    else if !relaying then Local
    else if request.proxied then Decline
    else Relay
  }

  function Marked(request: Request): Request { request.(proxied := true) }

  // ----- the order in which peers are tried -----

  datatype Peer = Peer(url: string, host: Option<string>)

  datatype Member = Member(host: Option<string>, role: string)

  function LeaderHosts(cluster: Option<seq<Member>>): set<Option<string>> {
    if cluster.None? then {}
    else set m | m in cluster.value && m.role == "leader" :: m.host
  }

  predicate First(p: Peer, leaders: set<Option<string>>) { p.host in leaders }

  /** Stable insertion: a leader host goes before everything, any other peer before the peers of its own kind. */
  function InsertPeer(p: Peer, sorted: seq<Peer>, leaders: set<Option<string>>): seq<Peer> {
    if sorted == [] || First(p, leaders) || !First(sorted[0], leaders) then [p] + sorted
    else [sorted[0]] + InsertPeer(p, sorted[1..], leaders)
  }

  function LeaderFirst(peers: seq<Peer>, leaders: set<Option<string>>): seq<Peer> {
    if peers == [] then [] else InsertPeer(peers[0], LeaderFirst(peers[1..], leaders), leaders)
  }

  /** The peers of one kind, in order. */
  function OfKind(peers: seq<Peer>, leaders: set<Option<string>>, first: bool): seq<Peer> {
    if peers == [] then []
    else (if First(peers[0], leaders) == first then [peers[0]] else []) + OfKind(peers[1..], leaders, first)
  }

  ghost predicate LeadersAhead(peers: seq<Peer>, leaders: set<Option<string>>) {
    forall i, j | 0 <= i < j < |peers| && First(peers[j], leaders) :: First(peers[i], leaders)
  }

  lemma AheadTail(peers: seq<Peer>, leaders: set<Option<string>>)
    requires LeadersAhead(peers, leaders) && peers != []
    ensures LeadersAhead(peers[1..], leaders)
    ensures !First(peers[0], leaders) ==> forall p | p in peers :: !First(p, leaders)
  {
    forall i, j | 0 <= i < j < |peers| - 1 && First(peers[1..][j], leaders) ensures First(peers[1..][i], leaders) {
      assert First(peers[j + 1], leaders);
      assert First(peers[i + 1], leaders);
    }
    if !First(peers[0], leaders) {
      forall j | 0 <= j < |peers| ensures !First(peers[j], leaders) {
      }
    }
  }

  lemma AheadCons(p: Peer, rest: seq<Peer>, leaders: set<Option<string>>)
    requires LeadersAhead(rest, leaders)
    requires First(p, leaders) || forall q | q in rest :: !First(q, leaders)
    ensures LeadersAhead([p] + rest, leaders)
  {
    forall i, j | 0 <= i < j < |rest| + 1 && First(([p] + rest)[j], leaders) ensures First(([p] + rest)[i], leaders) {
      assert rest[j - 1] in rest && First(rest[j - 1], leaders);
      if i > 0 {
        assert First(rest[i - 1], leaders);
      }
    }
  }

  lemma {:induction false} InsertSorts(p: Peer, sorted: seq<Peer>, leaders: set<Option<string>>)
    requires LeadersAhead(sorted, leaders)
    ensures LeadersAhead(InsertPeer(p, sorted, leaders), leaders)
    ensures forall first :: OfKind(InsertPeer(p, sorted, leaders), leaders, first)
                            == (if First(p, leaders) == first then [p] else []) + OfKind(sorted, leaders, first)
    ensures multiset(InsertPeer(p, sorted, leaders)) == multiset{p} + multiset(sorted)
  {
    if sorted == [] {
    } else {
      AheadTail(sorted, leaders);
      assert sorted == [sorted[0]] + sorted[1..];
      if First(p, leaders) || !First(sorted[0], leaders) {
        AheadCons(p, sorted, leaders);
      } else {
        InsertSorts(p, sorted[1..], leaders);
        AheadCons(sorted[0], InsertPeer(p, sorted[1..], leaders), leaders);
      }
    }
  }

  lemma {:induction false} LeaderFirstSorts(peers: seq<Peer>, leaders: set<Option<string>>)
    ensures LeadersAhead(LeaderFirst(peers, leaders), leaders)
    ensures forall first :: OfKind(LeaderFirst(peers, leaders), leaders, first) == OfKind(peers, leaders, first)
    ensures multiset(LeaderFirst(peers, leaders)) == multiset(peers)
  {
    if peers != [] {
      LeaderFirstSorts(peers[1..], leaders);
      InsertSorts(peers[0], LeaderFirst(peers[1..], leaders), leaders);
      assert peers == [peers[0]] + peers[1..];
    }
  }

  /** A list with the leader hosts ahead is its leaders, then its others. */
  lemma {:induction false} AheadIsTwoKinds(peers: seq<Peer>, leaders: set<Option<string>>)
    requires LeadersAhead(peers, leaders)
    ensures peers == OfKind(peers, leaders, true) + OfKind(peers, leaders, false)
  {
    if peers != [] {
      AheadTail(peers, leaders);
      assert peers == [peers[0]] + peers[1..];
      if First(peers[0], leaders) {
        AheadIsTwoKinds(peers[1..], leaders);
        var first, others := OfKind(peers[1..], leaders, true), OfKind(peers[1..], leaders, false);
        assert [peers[0]] + (first + others) == ([peers[0]] + first) + others;
        assert [] + others == others;
      } else {
        NoneFirst(peers, leaders);
        assert [] + peers == peers;
      }
    }
  }

  lemma {:induction false} NoneFirst(peers: seq<Peer>, leaders: set<Option<string>>)
    requires forall p | p in peers :: !First(p, leaders)
    ensures OfKind(peers, leaders, true) == [] && OfKind(peers, leaders, false) == peers
  {
    if peers != [] {
      assert peers == [peers[0]] + peers[1..];
      NoneFirst(peers[1..], leaders);
    }
  }

  /** The order tried is the one stable reordering with leader hosts ahead: among themselves leader hosts keep their
      order, and so do the others. */
  lemma LeaderFirstIsTheStableOrder(peers: seq<Peer>, leaders: set<Option<string>>, order: seq<Peer>)
    ensures order == LeaderFirst(peers, leaders) <==>
            && LeadersAhead(order, leaders)
            && OfKind(order, leaders, true) == OfKind(peers, leaders, true)
            && OfKind(order, leaders, false) == OfKind(peers, leaders, false)
    ensures multiset(LeaderFirst(peers, leaders)) == multiset(peers)
  {
    LeaderFirstSorts(peers, leaders);
    AheadIsTwoKinds(LeaderFirst(peers, leaders), leaders);
    if LeadersAhead(order, leaders) {
      AheadIsTwoKinds(order, leaders);
    }
  }

  /** No cluster, no leader, or a leader host that is no peer's: the order is unchanged. */
  lemma UnknownLeaderKeepsOrder(peers: seq<Peer>, leaders: set<Option<string>>)
    requires forall p | p in peers :: !First(p, leaders)
    ensures LeaderFirst(peers, leaders) == peers
  {
    NoneFirst(peers, leaders);
    forall j | 0 <= j < |peers| ensures !First(peers[j], leaders) {
      assert peers[j] in peers;
    }
    LeaderFirstIsTheStableOrder(peers, leaders, peers);
  }

  // ----- one relayed write -----

  /** How one exchange with a peer goes: not delivered, delivered but the reply lost, or answered. */
  datatype Link = Unreachable | ReplyLost | Answered

  /** The moment at which a peer is tried: which nodes lead then, and how the exchange goes. */
  datatype Moment = Moment(leaders: set<string>, link: Link)

  datatype Answer = FromPeer(url: string) | NoPrimary

  /** What is the same for the whole request: where relaying is enabled. */
  type Enabled = set<string>

  predicate Executes(request: Request, url: string, moment: Moment, enabled: Enabled) {
    moment.link != Unreachable && Dispatch(Marked(request), url in moment.leaders, url in enabled) == Local
  }

  predicate Answers(request: Request, url: string, moment: Moment, enabled: Enabled) {
    Executes(request, url, moment, enabled) && moment.link == Answered
  }

  /** The endpoints run, in order, and the answer given, when the k-th peer of the order is tried at the k-th moment. */
  function RelayRun(request: Request, order: seq<Peer>, moments: seq<Moment>, enabled: Enabled): (seq<string>, Answer)
    requires |moments| == |order|
  {
    if order == [] then ([], NoPrimary)
    else
      var ran := if Executes(request, order[0].url, moments[0], enabled) then [order[0].url] else [];
      if Answers(request, order[0].url, moments[0], enabled) then (ran, FromPeer(order[0].url))
      else
        var rest := RelayRun(request, order[1..], moments[1..], enabled);
        (ran + rest.0, rest.1)
  }

  /** The rest of the run, from the i-th peer on. */
  function RunFrom(request: Request, order: seq<Peer>, moments: seq<Moment>, enabled: Enabled, i: nat): (seq<string>, Answer)
    requires |moments| == |order| && i <= |order|
  {
    RelayRun(request, order[i..], moments[i..], enabled)
  }

  lemma RunFromStart(request: Request, order: seq<Peer>, moments: seq<Moment>, enabled: Enabled)
    requires |moments| == |order|
    ensures RunFrom(request, order, moments, enabled, 0) == RelayRun(request, order, moments, enabled)
    ensures RunFrom(request, order, moments, enabled, |order|) == ([], NoPrimary)
  {
    assert order[0..] == order && moments[0..] == moments;
  }

  lemma RunFromNext(request: Request, order: seq<Peer>, moments: seq<Moment>, enabled: Enabled, i: nat)
    requires |moments| == |order| && i < |order|
    ensures var rest := RunFrom(request, order, moments, enabled, i + 1);
            var ran := if Executes(request, order[i].url, moments[i], enabled) then [order[i].url] else [];
            RunFrom(request, order, moments, enabled, i)
            == if Answers(request, order[i].url, moments[i], enabled) then (ran, FromPeer(order[i].url))
               else (ran + rest.0, rest.1)
  {
    assert order[i..][1..] == order[i + 1..] && moments[i..][1..] == moments[i + 1..];
  }

  ghost predicate Continues(run: (seq<string>, Answer), ran: seq<string>, rest: (seq<string>, Answer)) {
    run == (ran + rest.0, rest.1)
  }

  lemma LeaderFirstSize(peers: seq<Peer>, leaders: set<Option<string>>)
    ensures |LeaderFirst(peers, leaders)| == |peers|
  {
    LeaderFirstSorts(peers, leaders);
    assert |LeaderFirst(peers, leaders)| == |multiset(LeaderFirst(peers, leaders))| == |multiset(peers)| == |peers|;
  }

  /** The relay's loop over the peers, with its early exit. */
  method ProxyWriteToPrimary(request: Request, peers: seq<Peer>, cluster: Option<seq<Member>>, moments: seq<Moment>,
                             enabled: Enabled) returns (ran: seq<string>, answer: Answer)
    requires |moments| == |peers|
    ensures |LeaderFirst(peers, LeaderHosts(cluster))| == |peers|
    ensures (ran, answer) == RelayRun(request, LeaderFirst(peers, LeaderHosts(cluster)), moments, enabled)
  {
    var order := LeaderFirst(peers, LeaderHosts(cluster));
    LeaderFirstSize(peers, LeaderHosts(cluster));
    RunFromStart(request, order, moments, enabled);
    ghost var run := RelayRun(request, order, moments, enabled);
    ran := [];
    assert [] + run.0 == run.0;
    var i := 0;
    while i < |order|
      invariant 0 <= i <= |order|
      invariant Continues(run, ran, RunFrom(request, order, moments, enabled, i))
    {
      var url, moment := order[i].url, moments[i];
      ghost var before, rest := ran, RunFrom(request, order, moments, enabled, i + 1);
      RunFromNext(request, order, moments, enabled, i);
      i := i + 1;
      if moment.link == Unreachable {
        assert before + ([] + rest.0) == before + rest.0;
        continue;
      }
      if Dispatch(Marked(request), url in moment.leaders, url in enabled) != Local {
        assert before + ([] + rest.0) == before + rest.0;
        continue;
      }
      ran := ran + [url];
      if moment.link == Answered {
        return ran, FromPeer(url);
      }
      assert before + ([url] + rest.0) == ran + rest.0;
    }
    assert ran + [] == ran;
    return ran, NoPrimary;
  }

  // ----- one hop -----

  /** A marked request is never relayed again: whatever node it reaches, no request makes a second hop. */
  function Hops(request: Request, isLeader: bool, relaying: bool, peers: seq<Peer>, moments: seq<Moment>,
                enabled: Enabled): (hops: nat)
    requires |moments| == |peers|
    ensures hops <= 1
    ensures request.proxied ==> hops == 0
    decreases if request.proxied then 0 else 1, |peers|
  {
    if Dispatch(request, isLeader, relaying) != Relay || peers == [] then 0
    else
      var there := Hops(Marked(request), peers[0].url in moments[0].leaders, peers[0].url in enabled,
                        peers[1..], moments[1..], enabled);
      var others := Hops(request, isLeader, relaying, peers[1..], moments[1..], enabled);
      Max(1 + there, others)
  }

  // ----- who executes -----

  ghost predicate DistinctPeers(peers: seq<Peer>) {
    forall i, j | 0 <= i < j < |peers| :: peers[i].url != peers[j].url
  }

  /** One leader at most, the same for the whole request. */
  ghost predicate SteadyLeader(moments: seq<Moment>, leader: Option<string>) {
    forall i | 0 <= i < |moments| :: moments[i].leaders == if leader.Some? then {leader.value} else {}
  }

  ghost predicate RelayingEverywhere(peers: seq<Peer>, enabled: Enabled) {
    forall p | p in peers :: p.url in enabled
  }

  lemma OnlyLeadersExecute(request: Request, url: string, moment: Moment, enabled: Enabled)
    requires IsProxyableWrite(request.verb, request.path) && url in enabled
    ensures Executes(request, url, moment, enabled) <==> moment.link != Unreachable && url in moment.leaders
  {
  }

  lemma DistinctTail(order: seq<Peer>)
    requires DistinctPeers(order) && order != []
    ensures DistinctPeers(order[1..]) && forall p | p in order[1..] :: p.url != order[0].url
  {
    forall i, j | 0 <= i < j < |order| - 1 ensures order[1..][i].url != order[1..][j].url {
      assert order[i + 1].url != order[j + 1].url;
    }
    forall p | p in order[1..] ensures p.url != order[0].url {
      var j :| 0 <= j < |order| - 1 && order[1..][j] == p;
      assert order[j + 1] == p;
    }
  }

  /** Under a steady leader, along any order of distinct peers, only the leader's endpoint runs, and at most once. */
  lemma {:induction false} SteadyRun(request: Request, order: seq<Peer>, moments: seq<Moment>, enabled: Enabled,
                                     leader: Option<string>)
    requires |moments| == |order| && IsProxyableWrite(request.verb, request.path)
    requires DistinctPeers(order) && SteadyLeader(moments, leader) && RelayingEverywhere(order, enabled)
    ensures var (ran, answer) := RelayRun(request, order, moments, enabled);
            && (ran == [] || (leader.Some? && ran == [leader.value] && exists p | p in order :: p.url == leader.value))
            && (answer.FromPeer? ==> leader == Some(answer.url) && ran == [answer.url])
  {
    if order != [] {
      DistinctTail(order);
      OnlyLeadersExecute(request, order[0].url, moments[0], enabled);
      SteadyRun(request, order[1..], moments[1..], enabled, leader);
      assert order == [order[0]] + order[1..];
    }
  }

  lemma {:induction false} TwiceCounts(peers: seq<Peer>, i: nat, j: nat)
    requires i < j < |peers| && peers[i] == peers[j]
    ensures multiset(peers)[peers[i]] >= 2
  {
    assert peers == peers[..j] + [peers[j]] + peers[j + 1..];
    assert peers[i] == peers[..j][i];
    assert peers[i] in multiset(peers[..j]);
  }

  lemma {:induction false} DistinctCountsOnce(peers: seq<Peer>, p: Peer)
    requires DistinctPeers(peers)
    ensures multiset(peers)[p] <= 1
  {
    if peers != [] {
      DistinctTail(peers);
      assert peers == [peers[0]] + peers[1..];
      DistinctCountsOnce(peers[1..], p);
      if p == peers[0] {
        assert p !in peers[1..];
        assert p !in multiset(peers[1..]);
      }
    }
  }

  /** Reordering keeps peers distinct. */
  lemma OrderKeepsDistinct(peers: seq<Peer>, order: seq<Peer>)
    requires DistinctPeers(peers) && multiset(order) == multiset(peers)
    ensures DistinctPeers(order)
  {
    forall i, j | 0 <= i < j < |order| ensures order[i].url != order[j].url {
      assert order[i] in multiset(peers) && order[j] in multiset(peers);
      var a :| 0 <= a < |peers| && peers[a] == order[i];
      var b :| 0 <= b < |peers| && peers[b] == order[j];
      if order[i] == order[j] {
        TwiceCounts(order, i, j);
        DistinctCountsOnce(peers, order[i]);
      }
      assert a < b || b < a;
    }
  }

  /** With relaying enabled everywhere, distinct peers and at most one leader throughout, a relayed write runs on at most
      one node, once, and that node is the leader, however many connections fail and replies get lost; and an answer
      other than the final refusal is the answer of the node that ran it. */
  lemma AtMostOneExecution(request: Request, peers: seq<Peer>, cluster: Option<seq<Member>>, moments: seq<Moment>,
                           enabled: Enabled, leader: Option<string>)
    requires |moments| == |peers| && IsProxyableWrite(request.verb, request.path)
    requires DistinctPeers(peers) && SteadyLeader(moments, leader) && RelayingEverywhere(peers, enabled)
    ensures |LeaderFirst(peers, LeaderHosts(cluster))| == |peers|
    ensures var (ran, answer) := RelayRun(request, LeaderFirst(peers, LeaderHosts(cluster)), moments, enabled);
            && (ran == [] || (leader.Some? && ran == [leader.value]))
            && (answer.FromPeer? ==> ran == [answer.url])
  {
    var order := LeaderFirst(peers, LeaderHosts(cluster));
    LeaderFirstSorts(peers, LeaderHosts(cluster));
    LeaderFirstSize(peers, LeaderHosts(cluster));
    OrderKeepsDistinct(peers, order);
    forall p | p in order ensures p.url in enabled {
      assert p in multiset(peers);
    }
    SteadyRun(request, order, moments, enabled, leader);
  }

  /** A reachable leader among the peers is found: the write runs exactly once and is answered. */
  lemma {:induction false} ReachableLeaderAnswers(request: Request, order: seq<Peer>, moments: seq<Moment>,
                                                  enabled: Enabled, leader: string)
    requires |moments| == |order| && IsProxyableWrite(request.verb, request.path)
    requires DistinctPeers(order) && SteadyLeader(moments, Some(leader)) && RelayingEverywhere(order, enabled)
    requires exists p | p in order :: p.url == leader
    requires forall i | 0 <= i < |order| && order[i].url == leader :: moments[i].link == Answered
    ensures RelayRun(request, order, moments, enabled) == ([leader], FromPeer(leader))
  {
    OnlyLeadersExecute(request, order[0].url, moments[0], enabled);
    if order[0].url != leader {
      DistinctTail(order);
      assert !Executes(request, order[0].url, moments[0], enabled);
      forall i | 0 <= i < |order| - 1 && order[1..][i].url == leader ensures moments[1..][i].link == Answered {
        assert order[i + 1].url == leader;
      }
      assert order == [order[0]] + order[1..];
      ReachableLeaderAnswers(request, order[1..], moments[1..], enabled, leader);
      assert [] + [leader] == [leader];
    }
  }

  /** Even when the lead moves during the request, a second execution takes a lost reply. */
  lemma {:induction false} SecondExecutionTakesALostReply(request: Request, order: seq<Peer>, moments: seq<Moment>,
                                                          enabled: Enabled)
    requires |moments| == |order|
    requires forall i | 0 <= i < |moments| :: moments[i].link != ReplyLost
    ensures |RelayRun(request, order, moments, enabled).0| <= 1
  {
    if order != [] {
      SecondExecutionTakesALostReply(request, order[1..], moments[1..], enabled);
    }
  }

  /** The i-th peer runs the write, and no peer tried before it ran and answered it. */
  ghost predicate RunsIt(request: Request, order: seq<Peer>, moments: seq<Moment>, enabled: Enabled, i: nat)
    requires |moments| == |order|
  {
    && i < |order| && Executes(request, order[i].url, moments[i], enabled)
    && forall m: nat | m < i :: !Answers(request, order[m].url, moments[m], enabled)
  }

  /** Peer i of the order is peer i - 1 of the rest, unless the head answers. */
  lemma RunsItTail(request: Request, order: seq<Peer>, moments: seq<Moment>, enabled: Enabled, i: nat)
    requires |moments| == |order| && 0 < i < |order|
    ensures RunsIt(request, order, moments, enabled, i) <==>
              !Answers(request, order[0].url, moments[0], enabled)
              && RunsIt(request, order[1..], moments[1..], enabled, i - 1)
  {
    var tail, later := order[1..], moments[1..];
    assert tail[i - 1] == order[i] && later[i - 1] == moments[i];
    if RunsIt(request, order, moments, enabled, i) {
      assert !Answers(request, order[0].url, moments[0], enabled);
      forall m: nat | m < i - 1 ensures !Answers(request, tail[m].url, later[m], enabled) {
        assert !Answers(request, order[m + 1].url, moments[m + 1], enabled);
      }
    }
    if !Answers(request, order[0].url, moments[0], enabled) && RunsIt(request, tail, later, enabled, i - 1) {
      forall m: nat | m < i ensures !Answers(request, order[m].url, moments[m], enabled) {
        assert m > 0 ==> order[m] == tail[m - 1] && moments[m] == later[m - 1];
      }
    }
  }

  /** The write runs at all exactly when some peer of the order runs it before an answer comes. */
  lemma {:induction false} RunsAtLeastOnceExactly(request: Request, order: seq<Peer>, moments: seq<Moment>,
                                                  enabled: Enabled)
    requires |moments| == |order|
    ensures |RelayRun(request, order, moments, enabled).0| >= 1 <==>
            exists i: nat :: RunsIt(request, order, moments, enabled, i)
  {
    if order != [] {
      RunsAtLeastOnceExactly(request, order[1..], moments[1..], enabled);
      if Executes(request, order[0].url, moments[0], enabled) {
        assert RunsIt(request, order, moments, enabled, 0);
      } else {
        TailRuns(request, order, moments, enabled);
      }
    }
  }

  /** When the head neither runs nor answers it, the write runs where it runs in the rest. */
  lemma TailRuns(request: Request, order: seq<Peer>, moments: seq<Moment>, enabled: Enabled)
    requires |moments| == |order| && order != [] && !Answers(request, order[0].url, moments[0], enabled)
    ensures (exists i: nat :: i > 0 && RunsIt(request, order, moments, enabled, i)) <==>
            exists i: nat :: RunsIt(request, order[1..], moments[1..], enabled, i)
    ensures RunsIt(request, order, moments, enabled, 0) <==> Executes(request, order[0].url, moments[0], enabled)
  {
    if i: nat :| i > 0 && RunsIt(request, order, moments, enabled, i) {
      RunsItTail(request, order, moments, enabled, i);
    }
    if i: nat :| RunsIt(request, order[1..], moments[1..], enabled, i) {
      RunsItTail(request, order, moments, enabled, i + 1);
      assert RunsIt(request, order, moments, enabled, i + 1);
    }
  }

  /** Two different peers run the write. */
  ghost predicate TwoRunIt(request: Request, order: seq<Peer>, moments: seq<Moment>, enabled: Enabled)
    requires |moments| == |order|
  {
    exists i: nat, j: nat ::
      i < j && RunsIt(request, order, moments, enabled, i) && RunsIt(request, order, moments, enabled, j)
  }

  /** The exact condition of a repeated execution: two peers of the order execute the write, and no execution before the
      later one was answered, so every reply before it was lost. */
  lemma {:induction false} RunsTwiceExactly(request: Request, order: seq<Peer>, moments: seq<Moment>, enabled: Enabled)
    requires |moments| == |order|
    ensures |RelayRun(request, order, moments, enabled).0| >= 2 <==> TwoRunIt(request, order, moments, enabled)
  {
    if order != [] {
      if Answers(request, order[0].url, moments[0], enabled) {
        forall i: nat | i > 0 ensures !RunsIt(request, order, moments, enabled, i) {
        }
      } else {
        TailRuns(request, order, moments, enabled);
        TwoInTail(request, order, moments, enabled);
        RunsTwiceExactly(request, order[1..], moments[1..], enabled);
        RunsAtLeastOnceExactly(request, order[1..], moments[1..], enabled);
      }
    }
  }

  lemma TwoInTail(request: Request, order: seq<Peer>, moments: seq<Moment>, enabled: Enabled)
    requires |moments| == |order| && order != [] && !Answers(request, order[0].url, moments[0], enabled)
    ensures TwoRunIt(request, order, moments, enabled) <==>
            || TwoRunIt(request, order[1..], moments[1..], enabled)
            || (Executes(request, order[0].url, moments[0], enabled)
                && exists i: nat :: RunsIt(request, order[1..], moments[1..], enabled, i))
  {
    if TwoRunIt(request, order, moments, enabled) {
      var i: nat, j: nat :| i < j && RunsIt(request, order, moments, enabled, i)
                            && RunsIt(request, order, moments, enabled, j);
      RunsItTail(request, order, moments, enabled, j);
      if i > 0 {
        RunsItTail(request, order, moments, enabled, i);
      }
    }
    if TwoRunIt(request, order[1..], moments[1..], enabled) {
      var i: nat, j: nat :| i < j && RunsIt(request, order[1..], moments[1..], enabled, i)
                            && RunsIt(request, order[1..], moments[1..], enabled, j);
      RunsItTail(request, order, moments, enabled, i + 1);
      RunsItTail(request, order, moments, enabled, j + 1);
      assert RunsIt(request, order, moments, enabled, i + 1) && RunsIt(request, order, moments, enabled, j + 1);
    }
    if Executes(request, order[0].url, moments[0], enabled) {
      assert RunsIt(request, order, moments, enabled, 0);
      if i: nat :| RunsIt(request, order[1..], moments[1..], enabled, i) {
        RunsItTail(request, order, moments, enabled, i + 1);
        assert RunsIt(request, order, moments, enabled, i + 1);
      }
    }
  }

  /** It does happen: the leader runs the write, its reply is lost, and the next peer has taken the lead. */
  lemma MovedLeaderRunsItAgain(request: Request, a: Peer, b: Peer)
    requires IsProxyableWrite(request.verb, request.path) && a.url != b.url
    ensures var moments := [Moment({a.url}, ReplyLost), Moment({b.url}, Answered)];
            RelayRun(request, [a, b], moments, {a.url, b.url}) == ([a.url, b.url], FromPeer(b.url))
  {
    var enabled := {a.url, b.url};
    var m, n := Moment({a.url}, ReplyLost), Moment({b.url}, Answered);
    assert [a, b][1..] == [b] && [m, n][1..] == [n];
    OnlyLeadersExecute(request, a.url, m, enabled);
    OnlyLeadersExecute(request, b.url, n, enabled);
    assert RelayRun(request, [b], [n], enabled) == ([b.url], FromPeer(b.url));
    assert [a.url] + [b.url] == [a.url, b.url];
  }

  // ----- from the node a request reaches to the node that runs it -----

  datatype Reply = Own | Declined | Relayed(answer: Answer)

  /** The nodes that run a request which reaches the entry node, and the reply given there. */
  function Served(request: Request, entry: string, leads: bool, order: seq<Peer>, moments: seq<Moment>, enabled: Enabled)
      : (seq<string>, Reply)
    requires |moments| == |order|
  {
    match Dispatch(request, leads, entry in enabled)
    case Local => ([entry], Own)
    case Decline => ([], Declined)
    case Relay =>
      var run := RelayRun(request, order, moments, enabled);
      (run.0, Relayed(run.1))
  }

  /** The middleware of the entry node. */
  method ServeRequest(request: Request, entry: string, leads: bool, peers: seq<Peer>, cluster: Option<seq<Member>>,
                      moments: seq<Moment>, enabled: Enabled) returns (ran: seq<string>, reply: Reply)
    requires |moments| == |peers|
    ensures |LeaderFirst(peers, LeaderHosts(cluster))| == |peers|
    ensures (ran, reply) == Served(request, entry, leads, LeaderFirst(peers, LeaderHosts(cluster)), moments, enabled)
  {
    LeaderFirstSize(peers, LeaderHosts(cluster));
    if !IsProxyableWrite(request.verb, request.path) {
      return [entry], Own;
    }
    if leads {
      return [entry], Own;
    }
    if entry !in enabled {
      return [entry], Own;
    }
    if request.proxied {
      return [], Declined;
    }
    var answer;
    ran, answer := ProxyWriteToPrimary(request, peers, cluster, moments, enabled);
    reply := Relayed(answer);
  }

  /** A write of the API, but for heartbeats, tests and deployments. */
  ghost predicate MustBeWrittenByTheLeader(request: Request) {
    && (request.verb == "POST" || request.verb == "PUT" || request.verb == "PATCH" || request.verb == "DELETE")
    && "/api/" <= request.path && request.path != "/api/devices/heartbeat"
    && !("/api/test/" <= request.path) && !("/api/deployments/" <= request.path)
  }

  lemma ProxyableExactly(request: Request)
    ensures IsProxyableWrite(request.verb, request.path) <==> MustBeWrittenByTheLeader(request)
  {
    assert EXCLUDED_PREFIXES[0] == "/api/test/" && EXCLUDED_PREFIXES[1] == "/api/deployments/";
  }

  /** Where a request runs when it is not relayed: a leader, a node that does not relay, and any node for a request that
      need not reach the leader, run it themselves; a relaying replica refuses a write relayed to it. */
  lemma ServedLocally(request: Request, entry: string, leads: bool, order: seq<Peer>, moments: seq<Moment>, enabled: Enabled)
    requires |moments| == |order|
    ensures !MustBeWrittenByTheLeader(request) || leads || entry !in enabled ==>
              Served(request, entry, leads, order, moments, enabled) == ([entry], Own)
    ensures MustBeWrittenByTheLeader(request) && !leads && entry in enabled && request.proxied ==>
              Served(request, entry, leads, order, moments, enabled) == ([], Declined)
  {
    ProxyableExactly(request);
  }

  /** Whatever node a write reaches, with relaying everywhere and one reachable leader throughout, it runs once, on the
      leader, and the reply is the leader's. */
  lemma WriteReachesTheLeader(request: Request, entry: string, peers: seq<Peer>, cluster: Option<seq<Member>>,
                              moments: seq<Moment>, enabled: Enabled, leader: string)
    requires |moments| == |peers| && MustBeWrittenByTheLeader(request) && !request.proxied
    requires entry in enabled && RelayingEverywhere(peers, enabled) && DistinctPeers(peers)
    requires SteadyLeader(moments, Some(leader))
    requires entry != leader ==> exists p | p in peers :: p.url == leader
    requires var order := LeaderFirst(peers, LeaderHosts(cluster));
             forall i | 0 <= i < |order| && i < |moments| && order[i].url == leader :: moments[i].link == Answered
    ensures |LeaderFirst(peers, LeaderHosts(cluster))| == |peers|
    ensures Served(request, entry, entry == leader, LeaderFirst(peers, LeaderHosts(cluster)), moments, enabled)
            == ([leader], if entry == leader then Own else Relayed(FromPeer(leader)))
  {
    var order := LeaderFirst(peers, LeaderHosts(cluster));
    ProxyableExactly(request);
    LeaderFirstSorts(peers, LeaderHosts(cluster));
    LeaderFirstSize(peers, LeaderHosts(cluster));
    if entry != leader {
      OrderKeepsDistinct(peers, order);
      forall p | p in order ensures p.url in enabled {
        assert p in multiset(peers);
      }
      var p :| p in peers && p.url == leader;
      assert p in multiset(order);
      ReachableLeaderAnswers(request, order, moments, enabled, leader);
    }
  }

  /** Without any assumption on links: from whatever node, a write runs nowhere but on the leader, and once at most. */
  lemma WriteRunsOnTheLeaderOnly(request: Request, entry: string, peers: seq<Peer>, cluster: Option<seq<Member>>,
                                 moments: seq<Moment>, enabled: Enabled, leader: Option<string>)
    requires |moments| == |peers| && MustBeWrittenByTheLeader(request)
    requires entry in enabled && RelayingEverywhere(peers, enabled) && DistinctPeers(peers)
    requires SteadyLeader(moments, leader)
    ensures |LeaderFirst(peers, LeaderHosts(cluster))| == |peers|
    ensures var (ran, reply) := Served(request, entry, leader == Some(entry), LeaderFirst(peers, LeaderHosts(cluster)),
                                       moments, enabled);
            && (ran == [] || (leader.Some? && ran == [leader.value]))
            && (reply == Own || (reply.Relayed? && reply.answer.FromPeer?) ==> ran != [])
  {
    ProxyableExactly(request);
    AtMostOneExecution(request, peers, cluster, moments, enabled, leader);
  }
}
