/** Each node's own watch for a cluster without a live leader: one email per episode, at most one an hour. */
module LeaderLoss {
  import opened Basics

  const QUORUM_LOSS_THRESHOLD: int := 3 * MINUTE
  const EMAIL_MIN_INTERVAL: int := 1 * HOUR

  datatype LossState = LossState(since: Option<Time>, emailed: bool, lastEmailedAt: Option<Time>)

  const NO_LOSS := LossState(None, false, None)

  datatype Observation = Observation(leader: bool, now: Time)

  function NextState(state: LossState, leader: bool, now: Time): (LossState, bool) {
    if leader then (LossState(None, false, state.lastEmailedAt), false)
    else
      var since := if state.since.Some? then state.since.value else now;
      var due := !state.emailed && now - since > QUORUM_LOSS_THRESHOLD
                 && (state.lastEmailedAt.None? || now - state.lastEmailedAt.value >= EMAIL_MIN_INTERVAL);
      var last := if due then Some(now) else state.lastEmailedAt;
      (LossState(Some(since), state.emailed || due, last), due)
  }

  // ----- runs -----

  ghost predicate Stepped(states: seq<LossState>, seen: seq<Observation>, emails: seq<bool>, k: nat) {
    && k < |seen| && |states| == |seen| + 1 && |emails| == |seen|
    && (states[k + 1], emails[k]) == NextState(states[k], seen[k].leader, seen[k].now)
  }

  /** A run since the process started; the clock is the real one and does not go back. */
  ghost predicate IsRun(states: seq<LossState>, seen: seq<Observation>, emails: seq<bool>) {
    && |states| == |seen| + 1 && |emails| == |seen|
    && states[0] == NO_LOSS
    && (forall k: nat | k < |seen| :: Stepped(states, seen, emails, k))
    && forall i, j | 0 <= i < j < |seen| :: seen[i].now <= seen[j].now
  }

  /** The first tick of the unbroken leaderless stretch that tick k belongs to. */
  function StretchStart(seen: seq<Observation>, k: nat): (i: nat)
    requires k < |seen| && !seen[k].leader
    ensures i <= k && forall j | i <= j <= k :: !seen[j].leader
    ensures i > 0 ==> seen[i - 1].leader
  {
    if k == 0 || seen[k - 1].leader then k else StretchStart(seen, k - 1)
  }

  ghost predicate EmailedSince(emails: seq<bool>, from: nat, until: nat) {
    exists i :: from <= i < until && i < |emails| && emails[i]
  }

  ghost predicate EmailedWithin(seen: seq<Observation>, emails: seq<bool>, until: nat, from: Time) {
    exists i :: 0 <= i < until && i < |emails| && i < |seen| && emails[i] && seen[i].now > from
  }

  /** What the state remembers after k ticks. */
  ghost predicate Remembers(state: LossState, seen: seq<Observation>, emails: seq<bool>, k: nat)
    requires k <= |seen| == |emails|
  {
    && (if k > 0 && !seen[k - 1].leader
        then var start := StretchStart(seen, k - 1);
             state.since == Some(seen[start].now) && state.emailed == EmailedSince(emails, start, k)
        else state.since == None && !state.emailed)
    && (forall i | 0 <= i < k && emails[i] :: state.lastEmailedAt.Some? && seen[i].now <= state.lastEmailedAt.value)
    && (state.lastEmailedAt.Some? ==> exists i :: 0 <= i < k && emails[i] && seen[i].now == state.lastEmailedAt.value)
  }

  lemma {:induction false} StateRemembers(states: seq<LossState>, seen: seq<Observation>, emails: seq<bool>, k: nat)
    requires IsRun(states, seen, emails) && k <= |seen|
    ensures Remembers(states[k], seen, emails, k)
  {
    if k > 0 {
      StateRemembers(states, seen, emails, k - 1);
      assert Stepped(states, seen, emails, k - 1);
      RemembersOneMore(states, seen, emails, k - 1);
    }
  }

  lemma RemembersOneMore(states: seq<LossState>, seen: seq<Observation>, emails: seq<bool>, k: nat)
    requires IsRun(states, seen, emails) && Stepped(states, seen, emails, k) && Remembers(states[k], seen, emails, k)
    ensures Remembers(states[k + 1], seen, emails, k + 1)
  {
    if emails[k] {
      assert 0 <= k < k + 1 && emails[k] && seen[k].now == states[k + 1].lastEmailedAt.value;
    } else if states[k].lastEmailedAt.Some? {
      var i :| 0 <= i < k && emails[i] && seen[i].now == states[k].lastEmailedAt.value;
      assert 0 <= i < k + 1 && emails[i] && seen[i].now == states[k + 1].lastEmailedAt.value;
    }
    if !seen[k].leader {
      var start := StretchStart(seen, k);
      assert EmailedSince(emails, start, k + 1) <==> EmailedSince(emails, start, k) || emails[k];
    }
  }

  /** Exactly when an email goes out: the leaderless stretch is strictly longer than three minutes, it has had no email
      yet, and no email left this node in the last hour. */
  lemma EmailExactlyWhen(states: seq<LossState>, seen: seq<Observation>, emails: seq<bool>, k: nat)
    requires IsRun(states, seen, emails) && k < |seen|
    ensures emails[k] <==>
            && !seen[k].leader
            && seen[k].now - seen[StretchStart(seen, k)].now > 3 * MINUTE
            && !EmailedSince(emails, StretchStart(seen, k), k)
            && !EmailedWithin(seen, emails, k, seen[k].now - 1 * HOUR)
  {
    StateRemembers(states, seen, emails, k);
    assert Stepped(states, seen, emails, k);
    if !seen[k].leader {
      StretchKnown(states, seen, emails, k);
      LastEmailKnown(states, seen, emails, k, seen[k].now - 1 * HOUR);
    }
  }

  lemma StretchKnown(states: seq<LossState>, seen: seq<Observation>, emails: seq<bool>, k: nat)
    requires IsRun(states, seen, emails) && k < |seen| && !seen[k].leader && Remembers(states[k], seen, emails, k)
    ensures var start := StretchStart(seen, k);
            && (if states[k].since.Some? then states[k].since.value else seen[k].now) == seen[start].now
            && states[k].emailed == EmailedSince(emails, start, k)
  {
  }

  lemma LastEmailKnown(states: seq<LossState>, seen: seq<Observation>, emails: seq<bool>, k: nat, from: Time)
    requires IsRun(states, seen, emails) && k < |seen| && Remembers(states[k], seen, emails, k)
    ensures EmailedWithin(seen, emails, k, from) <==>
            states[k].lastEmailedAt.Some? && states[k].lastEmailedAt.value > from
  {
  }

  /** Any two emails are at least an hour apart, and belong to different stretches. */
  lemma EmailsAreApart(states: seq<LossState>, seen: seq<Observation>, emails: seq<bool>, i: nat, j: nat)
    requires IsRun(states, seen, emails) && i < j < |seen| && emails[i] && emails[j]
    ensures seen[j].now - seen[i].now >= 1 * HOUR
    ensures exists k :: i < k < j && seen[k].leader
  {
    EmailExactlyWhen(states, seen, emails, i);
    EmailExactlyWhen(states, seen, emails, j);
    assert !EmailedWithin(seen, emails, j, seen[j].now - 1 * HOUR);
    assert i < StretchStart(seen, j);
    assert seen[StretchStart(seen, j) - 1].leader;
  }

  /** No stretch goes unreported: once a tick finds it past three minutes, and an hour after any email of an earlier
      stretch, an email of this stretch has been sent. */
  lemma LongStretchIsReported(states: seq<LossState>, seen: seq<Observation>, emails: seq<bool>, k: nat)
    requires IsRun(states, seen, emails) && k < |seen| && !seen[k].leader
    requires seen[k].now - seen[StretchStart(seen, k)].now > 3 * MINUTE
    requires forall i | 0 <= i < StretchStart(seen, k) && emails[i] :: seen[k].now - seen[i].now >= 1 * HOUR
    ensures EmailedSince(emails, StretchStart(seen, k), k + 1)
  {
    EmailExactlyWhen(states, seen, emails, k);
    var start := StretchStart(seen, k);
    assert EmailedSince(emails, start, k + 1) <==> EmailedSince(emails, start, k) || emails[k];
    if EmailedWithin(seen, emails, k, seen[k].now - 1 * HOUR) {
      var i :| 0 <= i < k && emails[i] && seen[i].now > seen[k].now - 1 * HOUR;
      assert start <= i < k && emails[i];
    }
  }
}
