/** The escalation chain and its successor function: who is called after whom. */
module EscalationChain {
  import opened Basics

  datatype Entry = Entry(position: int, userId: int)

  // ----- what the two chain-editing endpoints guarantee -----

  ghost predicate Ordered(chain: seq<Entry>) {
    forall i, j | 0 <= i < j < |chain| :: chain[i].position < chain[j].position
  }

  ghost predicate UniqueUsers(chain: seq<Entry>) {
    forall i, j | 0 <= i < j < |chain| :: chain[i].userId != chain[j].userId
  }

  /** A chain read with ORDER BY position from a table with unique positions and unique users. */
  ghost predicate IsChain(chain: seq<Entry>) { Ordered(chain) && UniqueUsers(chain) }

  predicate Member(chain: seq<Entry>, user: Option<int>) {
    exists i | 0 <= i < |chain| :: Some(chain[i].userId) == user
  }

  // ----- the decision code's successor -----

  /** Position of the current user, -1 when he is not in the chain. */
  function CurrentPosition(chain: seq<Entry>, user: Option<int>): int {
    if chain == [] then -1
    else if user == Some(chain[0].userId) then chain[0].position
    else CurrentPosition(chain[1..], user)
  }

  function Beyond(chain: seq<Entry>, position: int): seq<Entry> {
    if chain == [] then []
    else if chain[0].position > position then [chain[0]] + Beyond(chain[1..], position)
    else Beyond(chain[1..], position)
  }

  function UpTo(chain: seq<Entry>, position: int): seq<Entry> {
    if chain == [] then []
    else if chain[0].position <= position then [chain[0]] + UpTo(chain[1..], position)
    else UpTo(chain[1..], position)
  }

  /** First candidate that is not the current user. */
  function FirstOther(candidates: seq<Entry>, user: Option<int>): Option<int> {
    if candidates == [] then None
    else if Some(candidates[0].userId) != user then Some(candidates[0].userId)
    else FirstOther(candidates[1..], user)
  }

  function NextUserId(chain: seq<Entry>, user: Option<int>): Option<int> {
    if chain == [] then None
    else
      var p := CurrentPosition(chain, user);
      FirstOther(Beyond(chain, p) + UpTo(chain, p), user)
  }

  // ----- the separately written successor of the loop, the admin button and phone key "2" -----

  /** First candidate that is not the current user and still exists in the users table. */
  function FirstKnownOther(candidates: seq<Entry>, user: Option<int>, known: set<int>): Option<Entry> {
    if candidates == [] then None
    else if Some(candidates[0].userId) != user && candidates[0].userId in known then Some(candidates[0])
    else FirstKnownOther(candidates[1..], user, known)
  }

  function NextKnownEntry(chain: seq<Entry>, user: Option<int>, known: set<int>): Option<Entry> {
    var p := CurrentPosition(chain, user);
    FirstKnownOther(Beyond(chain, p) + UpTo(chain, p), user, known)
  }

  method EntriesBeyond(chain: seq<Entry>, position: int) returns (after: seq<Entry>)
    ensures after == Beyond(chain, position)
  {
    after := [];
    for i := 0 to |chain|
      invariant after + Beyond(chain[i..], position) == Beyond(chain, position)
    {
      ghost var rest := Beyond(chain[i + 1..], position);
      assert chain[i..][1..] == chain[i + 1..];
      if chain[i].position > position {
        assert after + ([chain[i]] + rest) == after + [chain[i]] + rest;
        after := after + [chain[i]];
      }
    }
  }

  method EntriesUpTo(chain: seq<Entry>, position: int) returns (before: seq<Entry>)
    ensures before == UpTo(chain, position)
  {
    before := [];
    for i := 0 to |chain|
      invariant before + UpTo(chain[i..], position) == UpTo(chain, position)
    {
      ghost var rest := UpTo(chain[i + 1..], position);
      assert chain[i..][1..] == chain[i + 1..];
      if chain[i].position <= position {
        assert before + ([chain[i]] + rest) == before + [chain[i]] + rest;
        before := before + [chain[i]];
      }
    }
  }

  method FindNextUser(chain: seq<Entry>, currentPosition: int, user: Option<int>, known: set<int>)
    returns (next: Option<Entry>)
    ensures next == FirstKnownOther(Beyond(chain, currentPosition) + UpTo(chain, currentPosition), user, known)
  {
    var after := EntriesBeyond(chain, currentPosition);
    var before := EntriesUpTo(chain, currentPosition);
    var candidates := after + before;
    for i := 0 to |candidates|
      invariant FirstKnownOther(candidates[i..], user, known) == FirstKnownOther(candidates, user, known)
    {
      assert candidates[i..][1..] == candidates[i + 1..];
      if Some(candidates[i].userId) == user { continue; }
      if candidates[i].userId !in known { continue; }
      return Some(candidates[i]);
    }
    return None;
  }

  // ----- the successor is one cycle through the chain -----

  /** How many entries lie at or below a position. */
  function Cut(chain: seq<Entry>, p: int): nat {
    if chain == [] || chain[0].position > p then 0 else 1 + Cut(chain[1..], p)
  }

  lemma {:induction false} NoneBelow(chain: seq<Entry>, p: int)
    requires forall e | e in chain :: e.position > p
    ensures Beyond(chain, p) == chain && UpTo(chain, p) == []
  {
    if chain != [] {
      assert chain == [chain[0]] + chain[1..];
      assert forall e | e in chain[1..] :: e in chain;
      NoneBelow(chain[1..], p);
    }
  }

  lemma {:induction false} OrderedTail(chain: seq<Entry>)
    requires Ordered(chain) && chain != []
    ensures Ordered(chain[1..])
    ensures forall e | e in chain[1..] :: chain[0].position < e.position
  {
    forall i, j | 0 <= i < j < |chain| - 1
      ensures chain[1..][i].position < chain[1..][j].position
    {
      assert chain[i + 1].position < chain[j + 1].position;
    }
  }

  lemma {:induction false} CutBounds(chain: seq<Entry>, p: int)
    requires Ordered(chain)
    ensures Cut(chain, p) <= |chain|
    ensures Cut(chain, p) < |chain| ==> chain[Cut(chain, p)].position > p
    ensures Cut(chain, p) > 0 ==> chain[Cut(chain, p) - 1].position <= p
  {
    if chain != [] && chain[0].position <= p {
      OrderedTail(chain);
      CutBounds(chain[1..], p);
    }
  }

  lemma SlicesOneMore(chain: seq<Entry>, c: nat)
    requires c < |chain|
    ensures chain[1..][c..] == chain[c + 1..] && [chain[0]] + chain[1..][..c] == chain[..c + 1]
  {
  }

  lemma {:induction false} CutSlices(chain: seq<Entry>, p: int)
    requires Ordered(chain)
    ensures var c := Cut(chain, p);
            c <= |chain| && Beyond(chain, p) == chain[c..] && UpTo(chain, p) == chain[..c]
  {
    if chain != [] {
      OrderedTail(chain);
      if chain[0].position > p {
        NoneBelow(chain, p);
      } else {
        CutSlices(chain[1..], p);
        SlicesOneMore(chain, Cut(chain[1..], p));
        assert Cut(chain, p) == Cut(chain[1..], p) + 1;
        assert Beyond(chain, p) == Beyond(chain[1..], p);
        assert UpTo(chain, p) == [chain[0]] + UpTo(chain[1..], p);
      }
    }
  }

  /** In an ordered chain the candidates are the chain itself, rotated behind the current position. */
  lemma Rotation(chain: seq<Entry>, p: int)
    requires Ordered(chain)
    ensures var c := Cut(chain, p);
            c <= |chain| && Beyond(chain, p) == chain[c..] && UpTo(chain, p) == chain[..c]
    ensures Cut(chain, p) < |chain| ==> chain[Cut(chain, p)].position > p
    ensures Cut(chain, p) > 0 ==> chain[Cut(chain, p) - 1].position <= p
  {
    CutBounds(chain, p);
    CutSlices(chain, p);
  }

  lemma {:induction false} MemberPosition(chain: seq<Entry>, i: nat)
    requires UniqueUsers(chain) && i < |chain|
    ensures CurrentPosition(chain, Some(chain[i].userId)) == chain[i].position
  {
    if i > 0 {
      assert chain[1..][i - 1] == chain[i];
      MemberPosition(chain[1..], i - 1);
    }
  }

  lemma {:induction false} StrangerPosition(chain: seq<Entry>, user: Option<int>)
    requires !Member(chain, user)
    ensures CurrentPosition(chain, user) == -1
  {
    if chain != [] {
      assert Some(chain[0].userId) != user;
      assert forall i | 0 <= i < |chain| - 1 :: chain[1..][i] == chain[i + 1];
      StrangerPosition(chain[1..], user);
    }
  }

  /** The member after place i is the one at place i + 1, and after the last one comes the head. */
  lemma Successor(chain: seq<Entry>, i: nat)
    requires IsChain(chain) && |chain| >= 2 && i < |chain|
    ensures NextUserId(chain, Some(chain[i].userId))
            == Some(chain[if i + 1 == |chain| then 0 else i + 1].userId)
  {
    var p := chain[i].position;
    MemberPosition(chain, i);
    Rotation(chain, p);
    var cut := Cut(chain, p);
    assert cut > i;
    assert cut <= i + 1;
    var candidates := Beyond(chain, p) + UpTo(chain, p);
    var next := if i + 1 == |chain| then 0 else i + 1;
    assert candidates[0] == chain[next];
  }

  /** A one-entry chain has nobody to go to from its only member. */
  lemma LoneMemberStays(chain: seq<Entry>)
    requires |chain| == 1
    ensures NextUserId(chain, Some(chain[0].userId)) == None
  {
    var u := Some(chain[0].userId);
    var p := CurrentPosition(chain, u);
    assert chain == [chain[0]] && p == chain[0].position;
    Rotation(chain, p);
    var candidates := Beyond(chain, p) + UpTo(chain, p);
    assert candidates == chain;
    assert FirstOther(chain[1..], u) == None;
  }

  /** Someone outside the chain goes to the first entry whose position exceeds -1. He therefore goes to the
      head exactly when the head's position is not negative, or every position is: the endpoint that adds one
      entry accepts any integer as a position. */
  lemma StrangerGoesToHead(chain: seq<Entry>, user: Option<int>)
    requires IsChain(chain) && chain != [] && !Member(chain, user)
    ensures NextUserId(chain, user).Some?
    ensures NextUserId(chain, user) == Some(chain[0].userId)
            <==> chain[0].position >= 0 || chain[|chain| - 1].position < 0
  {
    StrangerPosition(chain, user);
    Rotation(chain, -1);
    var cut := Cut(chain, -1);
    var candidates := Beyond(chain, -1) + UpTo(chain, -1);
    assert candidates[0] == chain[if cut < |chain| then cut else 0];
    assert Some(candidates[0].userId) != user;
  }

  /** A chain with positions -5 and 3 sends an outsider to its second entry. */
  lemma StrangerCanMissTheHead()
    ensures NextUserId([Entry(-5, 1), Entry(3, 2)], Some(9)) == Some(2)
  {
    var chain := [Entry(-5, 1), Entry(3, 2)];
    StrangerGoesToHead(chain, Some(9));
    StrangerPosition(chain, Some(9));
    Rotation(chain, -1);
    assert (Beyond(chain, -1) + UpTo(chain, -1))[0] == chain[1];
  }

  /** The user reached by applying the successor k times. */
  function Walk(chain: seq<Entry>, start: Option<int>, k: nat): Option<int> {
    Iterate(user => NextUserId(chain, user), start, k)
  }

  function Iterate(next: Option<int> -> Option<int>, start: Option<int>, k: nat): Option<int> {
    if k == 0 then start else next(Iterate(next, start, k - 1))
  }

  lemma WalkStep(chain: seq<Entry>, start: Option<int>, k: nat)
    ensures Walk(chain, start, 0) == start
    ensures Walk(chain, start, k + 1) == NextUserId(chain, Walk(chain, start, k))
  {
  }

  lemma StepFromPlace(chain: seq<Entry>, x: nat)
    requires IsChain(chain) && |chain| >= 2
    ensures NextUserId(chain, Some(chain[Ring(x, |chain|)].userId)) == Some(chain[Ring(x + 1, |chain|)].userId)
  {
    Successor(chain, Ring(x, |chain|));
    RingStep(x, |chain|);
  }

  lemma {:induction false} WalkAround(next: Option<int> -> Option<int>, ring: nat -> int, i: nat, k: nat)
    requires forall x: nat :: next(Some(ring(x))) == Some(ring(x + 1))
    ensures Iterate(next, Some(ring(i)), k) == Some(ring(i + k))
  {
    if k > 0 {
      WalkAround(next, ring, i, k - 1);
    }
  }

  lemma ChainGoesRound(chain: seq<Entry>, next: Option<int> -> Option<int>, ring: nat -> int)
    requires IsChain(chain) && |chain| >= 2
    requires forall user :: next(user) == NextUserId(chain, user)
    requires forall x: nat :: ring(x) == chain[Ring(x, |chain|)].userId
    ensures forall x: nat :: next(Some(ring(x))) == Some(ring(x + 1))
  {
    forall x: nat ensures next(Some(ring(x))) == Some(ring(x + 1)) {
      StepFromPlace(chain, x);
    }
  }

  lemma WalkInPlaces(chain: seq<Entry>, next: Option<int> -> Option<int>, ring: nat -> int, i: nat, k: nat)
    requires IsChain(chain) && |chain| >= 2 && i < |chain|
    requires forall user :: next(user) == NextUserId(chain, user)
    requires forall x: nat :: ring(x) == chain[Ring(x, |chain|)].userId
    ensures Iterate(next, Some(chain[i].userId), k) == Some(chain[Ring(i + k, |chain|)].userId)
  {
    ChainGoesRound(chain, next, ring);
    WalkAround(next, ring, i, k);
    assert ring(i) == chain[i].userId && ring(i + k) == chain[Ring(i + k, |chain|)].userId;
  }

  /** k steps from place i lead to place i + k, counted round the chain. */
  lemma WalkFromMember(chain: seq<Entry>, i: nat, k: nat)
    requires IsChain(chain) && |chain| >= 2 && i < |chain|
    ensures Walk(chain, Some(chain[i].userId), k) == Some(chain[Ring(i + k, |chain|)].userId)
  {
    WalkInPlaces(chain, user => NextUserId(chain, user), (x: nat) => chain[Ring(x, |chain|)].userId, i, k);
  }

  /** The first n steps from a member reach n different users. */
  lemma WalkIsInjective(chain: seq<Entry>, i: nat, j: nat, k: nat)
    requires IsChain(chain) && |chain| >= 2 && i < |chain| && j < k < |chain|
    ensures Walk(chain, Some(chain[i].userId), j) != Walk(chain, Some(chain[i].userId), k)
  {
    WalkFromMember(chain, i, j);
    WalkFromMember(chain, i, k);
    assert Ring(i + j, |chain|) != Ring(i + k, |chain|);
  }

  /** How many steps lead from place i to place m. */
  function StepsTo(chain: seq<Entry>, i: nat, m: nat): (k: nat)
    requires i < |chain| && m < |chain|
    ensures k < |chain| && Ring(i + k, |chain|) == m
  {
    if m >= i then m - i else m + |chain| - i
  }

  lemma WalkReaches(chain: seq<Entry>, i: nat, m: nat)
    requires IsChain(chain) && |chain| >= 2 && i < |chain| && m < |chain|
    ensures Walk(chain, Some(chain[i].userId), StepsTo(chain, i, m)) == Some(chain[m].userId)
  {
    WalkFromMember(chain, i, StepsTo(chain, i, m));
  }

  /** Starting anywhere in the chain, n steps visit every member once and come back. */
  lemma SingleCycle(chain: seq<Entry>, i: nat)
    requires IsChain(chain) && |chain| >= 2 && i < |chain|
    ensures Walk(chain, Some(chain[i].userId), |chain|) == Some(chain[i].userId)
    ensures forall j, k | 0 <= j < k < |chain| ::
              Walk(chain, Some(chain[i].userId), j) != Walk(chain, Some(chain[i].userId), k)
    ensures forall m | 0 <= m < |chain| ::
              Walk(chain, Some(chain[i].userId), StepsTo(chain, i, m)) == Some(chain[m].userId)
  {
    WalkFromMember(chain, i, |chain|);
    forall j, k | 0 <= j < k < |chain|
      ensures Walk(chain, Some(chain[i].userId), j) != Walk(chain, Some(chain[i].userId), k)
    {
      WalkIsInjective(chain, i, j, k);
    }
    forall m | 0 <= m < |chain|
      ensures Walk(chain, Some(chain[i].userId), StepsTo(chain, i, m)) == Some(chain[m].userId)
    {
      WalkReaches(chain, i, m);
    }
  }

  // ----- the two successors agree -----

  lemma {:induction false} KnownOtherAgrees(candidates: seq<Entry>, user: Option<int>, known: set<int>)
    requires forall e | e in candidates :: e.userId in known
    ensures match FirstKnownOther(candidates, user, known)
            case None => FirstOther(candidates, user) == None
            case Some(e) => FirstOther(candidates, user) == Some(e.userId)
  {
    if candidates != [] && Some(candidates[0].userId) == user {
      KnownOtherAgrees(candidates[1..], user, known);
    }
  }

  /** Whenever every chain user still exists, both successors choose the same user. */
  lemma SuccessorsAgree(chain: seq<Entry>, user: Option<int>, known: set<int>)
    requires Ordered(chain)
    requires forall e | e in chain :: e.userId in known
    ensures match NextKnownEntry(chain, user, known)
            case None => NextUserId(chain, user) == None
            case Some(e) => e in chain && NextUserId(chain, user) == Some(e.userId)
  {
    var p := CurrentPosition(chain, user);
    Rotation(chain, p);
    var candidates := Beyond(chain, p) + UpTo(chain, p);
    assert forall e | e in candidates :: e in chain;
    KnownOtherAgrees(candidates, user, known);
    KnownOtherIsCandidate(candidates, user, known);
  }

  lemma {:induction false} KnownOtherIsCandidate(candidates: seq<Entry>, user: Option<int>, known: set<int>)
    ensures var next := FirstKnownOther(candidates, user, known);
            next.Some? ==> next.value in candidates && Some(next.value.userId) != user
  {
    if candidates != [] && !(Some(candidates[0].userId) != user && candidates[0].userId in known) {
      KnownOtherIsCandidate(candidates[1..], user, known);
    }
  }

  /** The candidate may be called: he is not the current user, and he still exists. */
  predicate Callable(e: Entry, user: Option<int>, known: set<int>) { Some(e.userId) != user && e.userId in known }

  ghost predicate IsFirstCallable(candidates: seq<Entry>, user: Option<int>, known: set<int>, j: nat) {
    j < |candidates| && Callable(candidates[j], user, known) && forall k | 0 <= k < j :: !Callable(candidates[k], user, known)
  }

  lemma {:induction false} FirstKnownOtherIs(candidates: seq<Entry>, user: Option<int>, known: set<int>) returns (j: nat)
    ensures match FirstKnownOther(candidates, user, known)
            case Some(e) => IsFirstCallable(candidates, user, known, j) && candidates[j] == e
            case None => forall k | 0 <= k < |candidates| :: !Callable(candidates[k], user, known)
  {
    j := 0;
    if candidates != [] && !Callable(candidates[0], user, known) {
      var rest := candidates[1..];
      var i := FirstKnownOtherIs(rest, user, known);
      j := i + 1;
      assert forall k | 0 < k < |candidates| :: candidates[k] == rest[k - 1];
    }
  }

  /** The d-th place after place i, round the chain. */
  function PlaceAfter(chain: seq<Entry>, i: nat, d: nat): Entry
    requires chain != []
  {
    chain[Ring(i + d, |chain|)]
  }

  /** The candidates after the member at place i: everybody once, round the chain, and himself last. */
  lemma CandidatesAfter(chain: seq<Entry>, i: nat)
    requires IsChain(chain) && i < |chain|
    ensures var p := CurrentPosition(chain, Some(chain[i].userId));
            var candidates := Beyond(chain, p) + UpTo(chain, p);
            && |candidates| == |chain| && candidates[|chain| - 1] == chain[i]
            && forall j: nat | j < |chain| :: candidates[j] == PlaceAfter(chain, i, j + 1)
  {
    var p, n := chain[i].position, |chain|;
    MemberPosition(chain, i);
    Rotation(chain, p);
    assert Cut(chain, p) == i + 1;
    forall j: nat | j < n ensures (Beyond(chain, p) + UpTo(chain, p))[j] == PlaceAfter(chain, i, j + 1) {
      RingOnce(i + 1 + j, n);
    }
  }

  ghost predicate IsNextKnown(chain: seq<Entry>, i: nat, known: set<int>, d: nat)
    requires chain != []
  {
    && 1 <= d < |chain| && PlaceAfter(chain, i, d).userId in known
    && forall c: nat | 1 <= c < d :: PlaceAfter(chain, i, c).userId !in known
  }

  /** Users may have been deleted: from the member at place i the scan finds the first member after him, round the chain,
      who still exists, and nobody exactly when no other member does. */
  lemma NextKnownIsFirstAfter(chain: seq<Entry>, i: nat, known: set<int>)
    requires IsChain(chain) && i < |chain|
    ensures match NextKnownEntry(chain, Some(chain[i].userId), known)
            case Some(e) => exists d: nat :: IsNextKnown(chain, i, known, d) && e == PlaceAfter(chain, i, d)
            case None => forall d: nat | 1 <= d < |chain| :: PlaceAfter(chain, i, d).userId !in known
  {
    var user := Some(chain[i].userId);
    var p := CurrentPosition(chain, user);
    var candidates := Beyond(chain, p) + UpTo(chain, p);
    CandidatesAfter(chain, i);
    forall d: nat | 1 <= d < |chain| ensures Callable(candidates[d - 1], user, known) <==>
                                             PlaceAfter(chain, i, d).userId in known
    {
      RingOnce(i + d, |chain|);
      assert candidates[d - 1] == PlaceAfter(chain, i, d);
    }
    var j := FirstKnownOtherIs(candidates, user, known);
    if NextKnownEntry(chain, user, known).Some? {
      assert candidates[j] == PlaceAfter(chain, i, j + 1);
      assert IsNextKnown(chain, i, known, j + 1);
    }
  }

  /** Less than two rounds. */
  lemma RingOnce(x: nat, n: nat)
    requires n > 0 && x < 2 * n
    ensures Ring(x, n) == if x < n then x else x - n
  {
  }

  lemma {:induction false} OtherIsCandidate(candidates: seq<Entry>, user: Option<int>)
    ensures var next := FirstOther(candidates, user);
            next.Some? ==> next != user && exists e | e in candidates :: Some(e.userId) == next
  {
    if candidates != [] && Some(candidates[0].userId) == user {
      OtherIsCandidate(candidates[1..], user);
    }
  }

  /** The successor is never the current user, and always a member. */
  lemma NextIsAnotherMember(chain: seq<Entry>, user: Option<int>)
    requires Ordered(chain)
    ensures var next := NextUserId(chain, user); next.Some? ==> next != user && Member(chain, next)
  {
    if chain != [] {
      var p := CurrentPosition(chain, user);
      Rotation(chain, p);
      var candidates := Beyond(chain, p) + UpTo(chain, p);
      OtherIsCandidate(candidates, user);
      var next := FirstOther(candidates, user);
      if next.Some? {
        var e :| e in candidates && Some(e.userId) == next;
        assert e in chain;
      }
    }
  }
}
