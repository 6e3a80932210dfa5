/** What the cluster can still do when nodes or gateways are down. */
module Resilience {
  import opened Basics

  datatype Node = Node(name: string, site: string)

  datatype Gateway = Gateway(gatewayId: string, site: string, host: string)

  datatype Topology = Topology(nodes: seq<Node>, voters: set<string>, relay: set<string>, gateways: seq<Gateway>,
                               publicNodes: set<string>, defaultSite: string)

  datatype Scenario = Scenario(downNodes: set<string>, downGateways: set<string>)

  datatype Outcome = Outcome(leaderPossible: bool, writableFrom: map<string, bool>, escalationRunning: bool,
                             alarmsCreated: map<string, bool>, smsCalls: map<string, bool>,
                             app4gReachable: bool, appDefaultLan: bool)

  /** name -> site; the last row of a name wins. */
  function SiteMap(nodes: seq<Node>): map<string, string> {
    if nodes == [] then map[]
    else SiteMap(nodes[..|nodes| - 1])[nodes[|nodes| - 1].name := nodes[|nodes| - 1].site]
  }

  function Up(topo: Topology, down: Scenario): set<string> { SiteMap(topo.nodes).Keys - down.downNodes }

  function Sites(topo: Topology): set<string> { SiteMap(topo.nodes).Values + {topo.defaultSite} }

  predicate RelayUp(topo: Topology, up: set<string>) { topo.relay * up != {} }

  predicate Connected(topo: Topology, a: string, b: string, up: set<string>)
    requires a in SiteMap(topo.nodes) && b in SiteMap(topo.nodes)
  {
    SiteMap(topo.nodes)[a] == SiteMap(topo.nodes)[b] || RelayUp(topo, up)
  }

  /** The voters a node that is up can reach. */
  function SeenVoters(topo: Topology, n: string, up: set<string>): set<string>
    requires up <= SiteMap(topo.nodes).Keys && n in up
  {
    set v | v in topo.voters * up && Connected(topo, n, v, up)
  }

  predicate IsCandidate(topo: Topology, n: string, up: set<string>)
    requires up <= SiteMap(topo.nodes).Keys
  {
    n in up && 2 * |SeenVoters(topo, n, up)| > |topo.voters|
  }

  function Candidates(topo: Topology, up: set<string>): set<string>
    requires up <= SiteMap(topo.nodes).Keys
  {
    set n | n in up && IsCandidate(topo, n, up)
  }

  predicate Writable(topo: Topology, up: set<string>, site: string)
    requires up <= SiteMap(topo.nodes).Keys
  {
    exists n, c | n in up && c in Candidates(topo, up) :: SiteMap(topo.nodes)[n] == site && Connected(topo, n, c, up)
  }

  predicate GatewayUp(g: Gateway, up: set<string>, down: Scenario) {
    g.host in up && g.gatewayId !in down.downGateways
  }

  predicate SiteHasGateway(topo: Topology, up: set<string>, down: Scenario, site: string) {
    exists h | h in topo.gateways :: h.site == site && GatewayUp(h, up, down)
  }

  predicate App4g(topo: Topology, up: set<string>)
    requires up <= SiteMap(topo.nodes).Keys
  {
    exists p | p in topo.publicNodes * up :: Writable(topo, up, SiteMap(topo.nodes)[p])
  }

  predicate DefaultLan(topo: Topology, up: set<string>)
    requires up <= SiteMap(topo.nodes).Keys
  {
    (exists n | n in up :: SiteMap(topo.nodes)[n] == topo.defaultSite) && Writable(topo, up, topo.defaultSite)
  }

  function GatewaySites(topo: Topology): set<string> { set g | g in topo.gateways :: g.site }

  /** None when a working gateway sits on a site no node and no default names: the lookup of that site fails. */
  function Evaluate(topo: Topology, down: Scenario): Option<Outcome> {
    var up := Up(topo, down);
    var leader := Candidates(topo, up) != {};
    if exists g | g in topo.gateways :: SiteHasGateway(topo, up, down, g.site) && g.site !in Sites(topo) then None
    else
      var alarms := map s | s in GatewaySites(topo) :: SiteHasGateway(topo, up, down, s) && Writable(topo, up, s);
      Some(Outcome(leader, map s | s in Sites(topo) :: Writable(topo, up, s), leader, alarms, alarms,
                   App4g(topo, up), DefaultLan(topo, up)))
  }

  // ----- no split brain -----

  /** The voters up at one site. */
  function VotersAt(topo: Topology, up: set<string>, site: string): set<string>
    requires up <= SiteMap(topo.nodes).Keys
  {
    set v | v in topo.voters * up && SiteMap(topo.nodes)[v] == site
  }

  lemma SeenIsSiteOrAll(topo: Topology, n: string, up: set<string>)
    requires up <= SiteMap(topo.nodes).Keys && n in up
    ensures SeenVoters(topo, n, up)
            == if RelayUp(topo, up) then topo.voters * up else VotersAt(topo, up, SiteMap(topo.nodes)[n])
  {
  }

  /** Two sites cannot both hold a strict majority of the voters. */
  lemma OneMajoritySite(topo: Topology, up: set<string>, s: string, t: string)
    requires up <= SiteMap(topo.nodes).Keys
    requires 2 * |VotersAt(topo, up, s)| > |topo.voters| && 2 * |VotersAt(topo, up, t)| > |topo.voters|
    ensures s == t
  {
    if s != t {
      var a, b := VotersAt(topo, up, s), VotersAt(topo, up, t);
      assert a !! b;
      assert |a + b| == |a| + |b|;
      SubsetSize(a + b, topo.voters);
    }
  }

  /** Any two nodes that could lead see each other, in every topology and for every set of nodes up. */
  lemma CandidatesSeeEachOther(topo: Topology, up: set<string>, a: string, b: string)
    requires up <= SiteMap(topo.nodes).Keys && IsCandidate(topo, a, up) && IsCandidate(topo, b, up)
    ensures Connected(topo, a, b, up)
  {
    if !RelayUp(topo, up) {
      SeenIsSiteOrAll(topo, a, up);
      SeenIsSiteOrAll(topo, b, up);
      OneMajoritySite(topo, up, SiteMap(topo.nodes)[a], SiteMap(topo.nodes)[b]);
    }
  }

  /** With the sites cut off from one another, at most one of them can write. */
  lemma OneWritableSite(topo: Topology, up: set<string>, s: string, t: string)
    requires up <= SiteMap(topo.nodes).Keys && !RelayUp(topo, up)
    requires Writable(topo, up, s) && Writable(topo, up, t)
    ensures s == t
  {
    var n, c :| n in up && c in Candidates(topo, up) && SiteMap(topo.nodes)[n] == s && Connected(topo, n, c, up);
    var m, d :| m in up && d in Candidates(topo, up) && SiteMap(topo.nodes)[m] == t && Connected(topo, m, d, up);
    CandidatesSeeEachOther(topo, up, c, d);
  }

  /** A leader is possible exactly when a majority of the voters is up and can meet: anywhere with a relay up,
      otherwise on one site. */
  lemma LeaderPossibleExactly(topo: Topology, up: set<string>)
    requires up <= SiteMap(topo.nodes).Keys
    ensures Candidates(topo, up) != {} <==>
            if RelayUp(topo, up) then 2 * |topo.voters * up| > |topo.voters|
            else exists s | s in Sites(topo) :: 2 * |VotersAt(topo, up, s)| > |topo.voters|
  {
    if Candidates(topo, up) != {} {
      var c :| c in Candidates(topo, up);
      SeenIsSiteOrAll(topo, c, up);
      assert SiteMap(topo.nodes)[c] in Sites(topo);
    }
    if RelayUp(topo, up) {
      if 2 * |topo.voters * up| > |topo.voters| {
        var r :| r in topo.relay * up;
        SeenIsSiteOrAll(topo, r, up);
        assert r in Candidates(topo, up);
      }
    } else {
      forall s | s in Sites(topo) && 2 * |VotersAt(topo, up, s)| > |topo.voters| ensures Candidates(topo, up) != {} {
        var v :| v in VotersAt(topo, up, s);
        SeenIsSiteOrAll(topo, v, up);
        assert v in Candidates(topo, up);
      }
    }
  }

  /** A site can write exactly when one of its nodes is up, a leader is possible, and the two can meet. */
  lemma WritableExactly(topo: Topology, up: set<string>, site: string)
    requires up <= SiteMap(topo.nodes).Keys
    ensures Writable(topo, up, site) <==>
            && (exists n | n in up :: SiteMap(topo.nodes)[n] == site)
            && if RelayUp(topo, up) then 2 * |topo.voters * up| > |topo.voters|
               else 2 * |VotersAt(topo, up, site)| > |topo.voters|
  {
    LeaderPossibleExactly(topo, up);
    if Writable(topo, up, site) && !RelayUp(topo, up) {
      var n, c :| n in up && c in Candidates(topo, up) && SiteMap(topo.nodes)[n] == site && Connected(topo, n, c, up);
      SeenIsSiteOrAll(topo, c, up);
    }
    if exists n | n in up :: SiteMap(topo.nodes)[n] == site {
      var n :| n in up && SiteMap(topo.nodes)[n] == site;
      if RelayUp(topo, up) && Candidates(topo, up) != {} {
        var c :| c in Candidates(topo, up);
        assert Connected(topo, n, c, up);
      } else if !RelayUp(topo, up) && 2 * |VotersAt(topo, up, site)| > |topo.voters| {
        SeenIsSiteOrAll(topo, n, up);
        assert n in Candidates(topo, up) && Connected(topo, n, n, up);
      }
    }
  }

  // ----- monotone damage -----

  lemma FewerVotersSeen(topo: Topology, n: string, up: set<string>, less: set<string>)
    requires less <= up <= SiteMap(topo.nodes).Keys && n in less
    ensures |SeenVoters(topo, n, less)| <= |SeenVoters(topo, n, up)|
  {
    assert topo.relay * less <= topo.relay * up;
    SubsetSize(SeenVoters(topo, n, less), SeenVoters(topo, n, up));
  }

  lemma FewerCandidates(topo: Topology, up: set<string>, less: set<string>)
    requires less <= up <= SiteMap(topo.nodes).Keys
    ensures Candidates(topo, less) <= Candidates(topo, up)
  {
    forall n | n in Candidates(topo, less) ensures n in Candidates(topo, up) {
      FewerVotersSeen(topo, n, up, less);
    }
  }

  lemma LessWritable(topo: Topology, up: set<string>, less: set<string>, site: string)
    requires less <= up <= SiteMap(topo.nodes).Keys && Writable(topo, less, site)
    ensures Writable(topo, up, site)
  {
    FewerCandidates(topo, up, less);
    assert topo.relay * less <= topo.relay * up;
    var n, c :| n in less && c in Candidates(topo, less) && SiteMap(topo.nodes)[n] == site && Connected(topo, n, c, less);
    assert n in up && c in Candidates(topo, up) && Connected(topo, n, c, up);
  }

  ghost predicate WorseThan(worse: Scenario, down: Scenario) {
    down.downNodes <= worse.downNodes && down.downGateways <= worse.downGateways
  }

  lemma FewerGateways(topo: Topology, down: Scenario, worse: Scenario, site: string)
    requires WorseThan(worse, down) && SiteHasGateway(topo, Up(topo, worse), worse, site)
    ensures SiteHasGateway(topo, Up(topo, down), down, site)
  {
    var h :| h in topo.gateways && h.site == site && GatewayUp(h, Up(topo, worse), worse);
    assert GatewayUp(h, Up(topo, down), down);
  }

  ghost predicate NoMore(a: map<string, bool>, b: map<string, bool>) {
    a.Keys == b.Keys && forall s | s in a && a[s] :: b[s]
  }

  /** Taking more nodes or gateways down never brings anything back: no leader, no writing site, no alarms, no app
      access, whatever the topology; and it never makes the evaluation fail. */
  lemma DamageIsMonotone(topo: Topology, down: Scenario, worse: Scenario)
    requires WorseThan(worse, down) && Evaluate(topo, down).Some?
    ensures Evaluate(topo, worse).Some?
    ensures var before, after := Evaluate(topo, down).value, Evaluate(topo, worse).value;
            && (after.leaderPossible ==> before.leaderPossible)
            && (after.escalationRunning ==> before.escalationRunning)
            && NoMore(after.writableFrom, before.writableFrom)
            && NoMore(after.alarmsCreated, before.alarmsCreated)
            && NoMore(after.smsCalls, before.smsCalls)
            && (after.app4gReachable ==> before.app4gReachable)
            && (after.appDefaultLan ==> before.appDefaultLan)
  {
    var up, less := Up(topo, down), Up(topo, worse);
    FewerCandidates(topo, up, less);
    forall s | Writable(topo, less, s) ensures Writable(topo, up, s) {
      LessWritable(topo, up, less, s);
    }
    forall s | SiteHasGateway(topo, less, worse, s) ensures SiteHasGateway(topo, up, down, s) {
      FewerGateways(topo, down, worse, s);
    }
    if App4g(topo, less) {
      var p :| p in topo.publicNodes * less && Writable(topo, less, SiteMap(topo.nodes)[p]);
      assert p in topo.publicNodes * up;
    }
  }

  /** An outcome never promises more than the cluster can do: alarms need a writing site, a writing site a leader. */
  lemma OutcomeIsConsistent(topo: Topology, down: Scenario, site: string)
    requires Evaluate(topo, down).Some?
    ensures var o := Evaluate(topo, down).value;
            && (site in o.alarmsCreated && o.alarmsCreated[site] ==> site in o.writableFrom && o.writableFrom[site])
            && (site in o.writableFrom && o.writableFrom[site] ==> o.leaderPossible)
            && (o.app4gReachable || o.appDefaultLan ==> o.leaderPossible)
  {
    var up := Up(topo, down);
    var o := Evaluate(topo, down).value;
    if site in o.alarmsCreated && o.alarmsCreated[site] {
      var g :| g in topo.gateways && g.site == site;
      assert SiteHasGateway(topo, up, down, g.site);
    }
    forall s | Writable(topo, up, s) ensures Candidates(topo, up) != {} {
      var n, c :| n in up && c in Candidates(topo, up) && SiteMap(topo.nodes)[n] == s && Connected(topo, n, c, up);
    }
  }

  // ----- every field of the outcome -----

  /** A node's site is that of the last row with its name. */
  ghost predicate LastRow(nodes: seq<Node>, name: string, site: string) {
    exists i | 0 <= i < |nodes| ::
      nodes[i] == Node(name, site) && forall j | i < j < |nodes| :: nodes[j].name != name
  }

  lemma {:induction false} SiteMapIsLastRow(nodes: seq<Node>)
    ensures forall name, site :: LastRow(nodes, name, site) <==> name in SiteMap(nodes) && SiteMap(nodes)[name] == site
  {
    if nodes != [] {
      var init, last := nodes[..|nodes| - 1], nodes[|nodes| - 1];
      SiteMapIsLastRow(init);
      forall name, site
        ensures LastRow(nodes, name, site) <==> name in SiteMap(nodes) && SiteMap(nodes)[name] == site
      {
        LastRowOneMore(nodes, name, site);
      }
    }
  }

  lemma LastRowOneMore(nodes: seq<Node>, name: string, site: string)
    requires nodes != []
    ensures var init, last := nodes[..|nodes| - 1], nodes[|nodes| - 1];
            LastRow(nodes, name, site) <==> if last.name == name then last.site == site else LastRow(init, name, site)
  {
    var init, last := nodes[..|nodes| - 1], nodes[|nodes| - 1];
    if last.name == name {
      if last.site == site {
        assert nodes[|nodes| - 1] == Node(name, site);
      }
    } else {
      if LastRow(init, name, site) {
        var i :| 0 <= i < |init| && init[i] == Node(name, site) && forall j | i < j < |init| :: init[j].name != name;
        assert nodes[i] == Node(name, site);
        forall j | i < j < |nodes| ensures nodes[j].name != name {
          assert j < |init| ==> nodes[j] == init[j];
        }
      }
      if LastRow(nodes, name, site) {
        var i :| 0 <= i < |nodes| && nodes[i] == Node(name, site) && forall j | i < j < |nodes| :: nodes[j].name != name;
        assert init[i] == Node(name, site);
        assert forall j | i < j < |init| :: init[j] == nodes[j];
      }
    }
  }

  /** The node is up, on that site. */
  ghost predicate UpAt(topo: Topology, down: Scenario, name: string, site: string) {
    LastRow(topo.nodes, name, site) && name !in down.downNodes
  }

  ghost predicate RelayStands(topo: Topology, down: Scenario) {
    exists r, s :: r in topo.relay && UpAt(topo, down, r, s)
  }

  /** The voters that are up, on one site or, without one, anywhere. */
  ghost function VotersUp(topo: Topology, down: Scenario, site: Option<string>): set<string> {
    set v | v in topo.voters && (exists s :: UpAt(topo, down, v, s) && (site.None? || s == site.value))
  }

  ghost predicate MajorityUp(topo: Topology, down: Scenario, site: Option<string>) {
    2 * |VotersUp(topo, down, site)| > |topo.voters|
  }

  /** A strict majority of the voters can meet: anywhere with a relay, else on one site. */
  ghost predicate MajorityMeets(topo: Topology, down: Scenario) {
    if RelayStands(topo, down) then MajorityUp(topo, down, None)
    else exists s :: MajorityUp(topo, down, Some(s))
  }

  /** A node of the site is up, and that majority can be met from it. */
  ghost predicate SiteWrites(topo: Topology, down: Scenario, site: string) {
    && (exists n :: UpAt(topo, down, n, site))
    && if RelayStands(topo, down) then MajorityUp(topo, down, None) else MajorityUp(topo, down, Some(site))
  }

  /** A gateway of the site answers: it is not down itself, and its host is up. */
  ghost predicate SiteHears(topo: Topology, down: Scenario, site: string) {
    exists g, s :: g in topo.gateways && g.site == site && g.gatewayId !in down.downGateways && UpAt(topo, down, g.host, s)
  }

  /** A site some node is on, or the default one. */
  ghost predicate IsSite(topo: Topology, site: string) {
    site == topo.defaultSite || exists n :: LastRow(topo.nodes, n, site)
  }

  ghost predicate HasGateway(topo: Topology, site: string) { exists g :: g in topo.gateways && g.site == site }

  lemma UpIsUpAt(topo: Topology, down: Scenario)
    ensures Up(topo, down) <= SiteMap(topo.nodes).Keys
    ensures forall n, s :: UpAt(topo, down, n, s) <==> n in Up(topo, down) && SiteMap(topo.nodes)[n] == s
    ensures RelayStands(topo, down) <==> RelayUp(topo, Up(topo, down))
    ensures VotersUp(topo, down, None) == topo.voters * Up(topo, down)
    ensures forall s :: VotersUp(topo, down, Some(s)) == VotersAt(topo, Up(topo, down), s)
  {
    SiteMapIsLastRow(topo.nodes);
    var up := Up(topo, down);
    forall n, s ensures UpAt(topo, down, n, s) <==> n in up && SiteMap(topo.nodes)[n] == s {
      assert LastRow(topo.nodes, n, s) <==> n in SiteMap(topo.nodes) && SiteMap(topo.nodes)[n] == s;
    }
    if RelayUp(topo, up) {
      var r :| r in topo.relay * up;
      assert UpAt(topo, down, r, SiteMap(topo.nodes)[r]);
    }
    if r, s :| r in topo.relay && UpAt(topo, down, r, s) {
      assert r in topo.relay * up;
    }
    forall v ensures v in VotersUp(topo, down, None) <==> v in topo.voters * up {
      assert v in up ==> UpAt(topo, down, v, SiteMap(topo.nodes)[v]);
    }
    forall s ensures VotersUp(topo, down, Some(s)) == VotersAt(topo, up, s) {
      forall v ensures v in VotersUp(topo, down, Some(s)) <==> v in VotersAt(topo, up, s) {
      }
    }
  }

  lemma SitesAre(topo: Topology, site: string)
    ensures site in Sites(topo) <==> IsSite(topo, site)
  {
    SiteMapIsLastRow(topo.nodes);
    if site in SiteMap(topo.nodes).Values {
      var n :| n in SiteMap(topo.nodes) && SiteMap(topo.nodes)[n] == site;
      assert LastRow(topo.nodes, n, site);
    }
    if n :| LastRow(topo.nodes, n, site) {
      assert SiteMap(topo.nodes)[n] == site;
    }
  }

  lemma SiteWritesExactly(topo: Topology, down: Scenario, site: string)
    ensures Up(topo, down) <= SiteMap(topo.nodes).Keys
    ensures Writable(topo, Up(topo, down), site) <==> SiteWrites(topo, down, site)
  {
    UpIsUpAt(topo, down);
    WritableExactly(topo, Up(topo, down), site);
    if n :| n in Up(topo, down) && SiteMap(topo.nodes)[n] == site {
      assert UpAt(topo, down, n, site);
    }
  }

  lemma MajorityMeetsExactly(topo: Topology, down: Scenario)
    ensures Up(topo, down) <= SiteMap(topo.nodes).Keys
    ensures Candidates(topo, Up(topo, down)) != {} <==> MajorityMeets(topo, down)
  {
    var up := Up(topo, down);
    UpIsUpAt(topo, down);
    LeaderPossibleExactly(topo, up);
    if s :| MajorityUp(topo, down, Some(s)) {
      var v :| v in VotersAt(topo, up, s);
      assert SiteMap(topo.nodes)[v] == s && s in Sites(topo);
    }
    if s :| s in Sites(topo) && 2 * |VotersAt(topo, up, s)| > |topo.voters| {
      assert MajorityUp(topo, down, Some(s));
    }
  }

  lemma SiteHearsExactly(topo: Topology, down: Scenario, site: string)
    ensures SiteHasGateway(topo, Up(topo, down), down, site) <==> SiteHears(topo, down, site)
  {
    UpIsUpAt(topo, down);
    if SiteHasGateway(topo, Up(topo, down), down, site) {
      var g :| g in topo.gateways && g.site == site && GatewayUp(g, Up(topo, down), down);
      assert UpAt(topo, down, g.host, SiteMap(topo.nodes)[g.host]);
    }
    if SiteHears(topo, down, site) {
      var g, s :| g in topo.gateways && g.site == site && g.gatewayId !in down.downGateways && UpAt(topo, down, g.host, s);
      assert GatewayUp(g, Up(topo, down), down);
    }
  }

  /** The evaluation fails exactly when a gateway answers from a site that is no node's and not the default one. */
  lemma FailsExactly(topo: Topology, down: Scenario)
    ensures Evaluate(topo, down).None? <==>
            exists site :: SiteHears(topo, down, site) && !IsSite(topo, site)
  {
    if Evaluate(topo, down).None? {
      var g :| g in topo.gateways && SiteHasGateway(topo, Up(topo, down), down, g.site) && g.site !in Sites(topo);
      SiteHearsExactly(topo, down, g.site);
      SitesAre(topo, g.site);
    }
    if site :| SiteHears(topo, down, site) && !IsSite(topo, site) {
      var g :| g in topo.gateways && g.site == site;
      SiteHearsExactly(topo, down, site);
      SitesAre(topo, site);
      assert SiteHasGateway(topo, Up(topo, down), down, g.site) && g.site !in Sites(topo);
    }
  }

  /** What each field of the outcome says of the nodes and gateways that are left. */
  lemma OutcomeExactly(topo: Topology, down: Scenario)
    requires Evaluate(topo, down).Some?
    ensures var o := Evaluate(topo, down).value;
            && (o.leaderPossible <==> MajorityMeets(topo, down))
            && (o.escalationRunning <==> MajorityMeets(topo, down))
            && (forall s :: s in o.writableFrom <==> IsSite(topo, s))
            && (forall s | s in o.writableFrom :: o.writableFrom[s] <==> SiteWrites(topo, down, s))
            && (forall s :: s in o.alarmsCreated <==> HasGateway(topo, s))
            && (forall s | s in o.alarmsCreated ::
                  o.alarmsCreated[s] <==> SiteHears(topo, down, s) && SiteWrites(topo, down, s))
            && (forall s :: s in o.smsCalls <==> HasGateway(topo, s))
            && (forall s | s in o.smsCalls :: o.smsCalls[s] <==> SiteHears(topo, down, s) && SiteWrites(topo, down, s))
            && (o.app4gReachable <==>
                  exists p, s :: p in topo.publicNodes && UpAt(topo, down, p, s) && SiteWrites(topo, down, s))
            && (o.appDefaultLan <==> SiteWrites(topo, down, topo.defaultSite))
  {
    var o, up := Evaluate(topo, down).value, Up(topo, down);
    MajorityMeetsExactly(topo, down);
    forall s ensures Writable(topo, up, s) <==> SiteWrites(topo, down, s) { SiteWritesExactly(topo, down, s); }
    forall s ensures s in Sites(topo) <==> IsSite(topo, s) { SitesAre(topo, s); }
    forall s ensures SiteHasGateway(topo, up, down, s) <==> SiteHears(topo, down, s) { SiteHearsExactly(topo, down, s); }
    forall s ensures s in GatewaySites(topo) <==> HasGateway(topo, s) {
    }
    App4gExactly(topo, down);
    LanExactly(topo, down);
  }

  lemma App4gExactly(topo: Topology, down: Scenario)
    ensures Up(topo, down) <= SiteMap(topo.nodes).Keys
    ensures App4g(topo, Up(topo, down)) <==>
            exists p, s :: p in topo.publicNodes && UpAt(topo, down, p, s) && SiteWrites(topo, down, s)
  {
    var up := Up(topo, down);
    UpIsUpAt(topo, down);
    if App4g(topo, up) {
      var p :| p in topo.publicNodes * up && Writable(topo, up, SiteMap(topo.nodes)[p]);
      SiteWritesExactly(topo, down, SiteMap(topo.nodes)[p]);
      assert UpAt(topo, down, p, SiteMap(topo.nodes)[p]);
    }
    if p, s :| p in topo.publicNodes && UpAt(topo, down, p, s) && SiteWrites(topo, down, s) {
      SiteWritesExactly(topo, down, s);
      assert p in topo.publicNodes * up;
    }
  }

  lemma LanExactly(topo: Topology, down: Scenario)
    ensures Up(topo, down) <= SiteMap(topo.nodes).Keys
    ensures DefaultLan(topo, Up(topo, down)) <==> SiteWrites(topo, down, topo.defaultSite)
  {
    UpIsUpAt(topo, down);
    SiteWritesExactly(topo, down, topo.defaultSite);
    if SiteWrites(topo, down, topo.defaultSite) {
      var n :| UpAt(topo, down, n, topo.defaultSite);
    }
  }
}
