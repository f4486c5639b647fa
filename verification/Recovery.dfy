/** How a message comes back to a worker and how it is laid to rest: the not-before time, a crashed
    winner, the backoff of a nack, a dlq retry, an ack, the expiry. Every statement is about the row's own
    columns. crates/nostr-q/src/lib.rs:206-247 and 418-494, crates/nostr-q-store/src/store.rs:285-380 and 486-497. */
module Recovery {
  import opened Base
  import opened Rows
  import opened Backoff
  import opened ClaimProtocol
  import opened Invariants
  import opened SoloRuns
  import opened DeadLetters
  import opened Refinement

  predicate Unexpired(p: Params, s: State) {
    p.expiresAt.Some? ==> Seconds(s.clock) < p.expiresAt.value
  }

  /** Time is kept in milliseconds and read in whole seconds, rounded down. */
  lemma SecondsAreFloored(clock: nat, k: nat)
    ensures 1000 * Seconds(clock) <= clock < 1000 * (Seconds(clock) + 1)
    ensures Seconds(clock + 1000 * k) == Seconds(clock) + k
  {
  }

  // ---- First delivery ----------------------------------------------------

  /** Every node can poll a new message exactly from its not-before time on, until it expires. */
  lemma FreshIsPolledInWindow(p: Params, i: nat, d: nat)
    requires i < |p.nodes|
    ensures var t := Apply(p, Initial(p), Tick(d));
            Enabled(p, t, Act(i, Poll))
            <==> Unexpired(p, t) && (p.notBefore.Some? ==> p.notBefore.value <= Seconds(t.clock))
  {
  }

  // ---- After a crash -----------------------------------------------------

  /** A node whose winner crashed can poll the message again exactly from the end of its lease on. */
  lemma CrashedWinIsPolledAfterLease(p: Params, s: State, i: nat, d: nat)
    requires Reachable(p, s) && Enabled(p, s, Act(i, Abort))
    requires s.nodes[i].pc.Handling? && s.nodes[i].row.status == Claimed
    ensures s.nodes[i].row.lease.Some?
    ensures var t := Apply(p, Apply(p, s, Act(i, Abort)), Tick(d));
            Enabled(p, t, Act(i, Poll)) <==> Unexpired(p, t) && s.nodes[i].row.lease.value <= Seconds(t.clock)
  {
    ReachableInv(p, s);
    assert NodeInv(p, i, s.clock, s.log, s.nodes[i]);
  }

  // ---- After a nack ------------------------------------------------------

  /** A nack that leaves budget makes the row pending after exactly the documented delay for the
      attempts since its floor. */
  lemma NackWaitsTheBackoff(p: Params, s: State, i: nat)
    requires Reachable(p, s) && Enabled(p, s, Act(i, JudgeNack))
    requires !EffectOf(p, s, i, JudgeNack).node.pc.DeadLettering?
    ensures var n, row := EffectOf(p, s, i, JudgeNack).node, s.nodes[i].row;
            && row.attempts > row.floor && n.pc.Idle?
            && n.row == row.(status := Pending, lease := None, visibleAt := n.row.visibleAt)
            && n.row.visibleAt == Seconds(s.clock) + IdealBackoff(p.nodes[i].retryBase, row.attempts - row.floor)
            && (p.nodes[i].retryBase >= 1 ==> n.row.visibleAt > Seconds(s.clock))
  {
    ReachableInv(p, s);
    assert NodeInv(p, i, s.clock, s.log, s.nodes[i]);
    var since := s.nodes[i].row.attempts - s.nodes[i].row.floor;
    BackoffIsIdeal(p.nodes[i].retryBase, since);
    if p.nodes[i].retryBase >= 1 {
      ScaleAtLeast(p.nodes[i].retryBase, Pow2(since - 1));
    }
  }

  /** Nobody has touched the waiting row except, perhaps, a sweep. */
  predicate Waits(n: Node, wake: int) {
    n.pc.Idle? && n.row.status in {Pending, Expired} && n.row.visibleAt == wake
  }

  lemma WaitsStep(p: Params, s: State, a: Action, i: nat, wake: int)
    requires Enabled(p, s, a) && i < |s.nodes| && Waits(s.nodes[i], wake) && Seconds(s.clock) < wake
    ensures Waits(Apply(p, s, a).nodes[i], wake)
  {
  }

  lemma {:induction false} WaitsAlways(p: Params, s: State, acts: seq<Action>, t: State, i: nat, wake: int)
    requires Exec(p, s, acts) == Some(t) && i < |s.nodes| && Waits(s.nodes[i], wake) && Seconds(t.clock) < wake
    ensures i < |t.nodes| && Waits(t.nodes[i], wake)
  {
    if acts != [] {
      var mid := Exec(p, s, acts[..|acts| - 1]).value;
      assert Seconds(mid.clock) <= Seconds(t.clock);
      WaitsAlways(p, s, acts[..|acts| - 1], mid, i, wake);
      WaitsStep(p, mid, acts[|acts| - 1], i, wake);
    }
  }

  /** Whatever happens anywhere, the node does not poll the message again before the delay is over. */
  lemma NoPollDuringBackoff(p: Params, s: State, i: nat, acts: seq<Action>, t: State)
    requires Reachable(p, s) && Enabled(p, s, Act(i, JudgeNack))
    requires !EffectOf(p, s, i, JudgeNack).node.pc.DeadLettering?
    requires Exec(p, Apply(p, s, Act(i, JudgeNack)), acts) == Some(t)
    requires var since := Max(1, s.nodes[i].row.attempts - s.nodes[i].row.floor);
             Seconds(t.clock) < Seconds(s.clock) + IdealBackoff(p.nodes[i].retryBase, since)
    ensures i < |t.nodes| && t.nodes[i].pc.Idle? && !Enabled(p, t, Act(i, Poll))
  {
    NackWaitsTheBackoff(p, s, i);
    var s' := Apply(p, s, Act(i, JudgeNack));
    WaitsAlways(p, s', acts, t, i, s'.nodes[i].row.visibleAt);
  }

  /** It can poll again as soon as the delay is over, if it has been left alone and the message lives. */
  lemma PollAfterBackoff(p: Params, s: State, i: nat, acts: seq<Action>, t: State)
    requires Reachable(p, s) && Enabled(p, s, Act(i, JudgeNack))
    requires !EffectOf(p, s, i, JudgeNack).node.pc.DeadLettering?
    requires Elsewhere(i, acts) && Exec(p, Apply(p, s, Act(i, JudgeNack)), acts) == Some(t)
    ensures i < |p.nodes| && i < |s.nodes|
    ensures var since := Max(1, s.nodes[i].row.attempts - s.nodes[i].row.floor);
            Enabled(p, t, Act(i, Poll))
            <==> Unexpired(p, t) && Seconds(s.clock) + IdealBackoff(p.nodes[i].retryBase, since) <= Seconds(t.clock)
  {
    NackWaitsTheBackoff(p, s, i);
    ReachableInv(p, s);
    assert NodeInv(p, i, s.clock, s.log, s.nodes[i]);
    ElsewhereKeeps(p, Apply(p, s, Act(i, JudgeNack)), acts, t, i);
  }

  // ---- After a dlq retry -------------------------------------------------

  /** A retried message can be polled at once, with a whole budget of attempts and no dlq entry. */
  lemma RetriedIsPolledAtOnce(p: Params, s: State, i: nat)
    requires Reachable(p, s) && Enabled(p, s, Act(i, RetryDead)) && Unexpired(p, s)
    ensures var t := Apply(p, s, Act(i, RetryDead));
            && Enabled(p, t, Act(i, Poll))
            && t.nodes[i].dlq.None? && t.nodes[i].pc.Idle?
            && t.nodes[i].row == s.nodes[i].row.(status := Pending, lease := None, visibleAt := 0,
                                                 floor := s.nodes[i].row.attempts)
            && Left(p.nodes[i].maxAttempts, t.nodes[i].row) == p.nodes[i].maxAttempts
  {
    ReachableInv(p, s);
    assert NodeInv(p, i, s.clock, s.log, s.nodes[i]);
  }

  /** With no ack on the log, the retried node's next uninterrupted attempt wins unless a dlq event it had
      never been healed to is on the log, or a foreign claim is live. */
  lemma RetriedWins(p: Params, s: State, i: nat, id: nat, createdAt: int) returns (t: State)
    requires Reachable(p, s) && Enabled(p, s, Act(i, RetryDead)) && Unexpired(p, s)
    requires !HasAck(s.log) && p.nodes[i].lease >= 1
    requires forall e :: e in s.log && e.DlqEvent? ==> e.attempt <= s.nodes[i].row.attempts
    requires WinnerNow(s).None? || WinnerNow(s).value.claimer == i
    requires forall c :: c in ClaimsOf(s.log) ==> c.id != id
    ensures t == Apply(p, s, Act(i, RetryDead))
    ensures var acts := if WinnerNow(s).Some? then Survey(i) else Survey(i) + Settlement(p, i, id, createdAt);
            var end := Exec(p, t, acts);
            end.Some? && exists w :: JustWon(t, end.value, i, w)
  {
    RetriedIsPolledAtOnce(p, s, i);
    t := Apply(p, s, Act(i, RetryDead));
    var before :| Exec(p, Initial(p), before) == Some(s);
    ExecSnoc(p, Initial(p), before, Act(i, RetryDead));
    MaxDlqBounds(s.log, AckEvent(0));
    SoloProgress(p, t, i, id, createdAt);
  }

  /** A retry stands against everything already on the log if and only if the row had been healed to every
      dlq event there: otherwise the very next check dead-letters the row again. */
  lemma RetryStandsExactly(p: Params, s: State, i: nat)
    requires Reachable(p, s) && Enabled(p, s, Act(i, RetryDead)) && Unexpired(p, s) && !HasAck(s.log)
    ensures var t := Exec(p, s, [Act(i, RetryDead)] + Survey(i)[..3]);
            && t.Some? && i < |t.value.nodes|
            && (t.value.nodes[i].row.status == Dead
                <==> exists e :: e in s.log && e.DlqEvent? && e.attempt > s.nodes[i].row.attempts)
  {
    RetriedIsPolledAtOnce(p, s, i);
    var retry, begin := [Act(i, RetryDead)], [Act(i, Poll), Act(i, Begin)];
    var s1 := Apply(p, s, Act(i, RetryDead));
    ExecSnoc(p, s, [], Act(i, RetryDead));
    assert [] + [Act(i, RetryDead)] == retry;
    var s2 := AttemptStarts(p, s1, i);
    ExecConcat(p, s, retry, begin);
    StillReachable(p, s, retry + begin, s2);
    ExecSnoc(p, s, retry + begin, Act(i, CheckTerminal));
    assert retry + begin + [Act(i, CheckTerminal)] == retry + Survey(i)[..3];
    ChecksKillExactly(p, s2, i);
  }

  // ---- Laid to rest ------------------------------------------------------

  /** An acked or expired row with no task on it stays as it is, whatever happens anywhere. */
  lemma {:induction false} FinishedStays(p: Params, s: State, acts: seq<Action>, t: State, i: nat)
    requires Exec(p, s, acts) == Some(t) && i < |s.nodes|
    requires s.nodes[i].pc.Idle? && s.nodes[i].row.status in {Acked, Expired}
    ensures i < |t.nodes| && t.nodes[i] == s.nodes[i]
  {
    if acts != [] {
      FinishedStays(p, s, acts[..|acts| - 1], Exec(p, s, acts[..|acts| - 1]).value, i);
    }
  }

  /** A node that acks has done with the message: its row is acked without a lease and never changes again,
      so it neither polls nor publishes anything more. */
  lemma AckIsFinal(p: Params, s: State, i: nat, acts: seq<Action>, t: State)
    requires Enabled(p, s, Act(i, FinishAck)) && Exec(p, Apply(p, s, Act(i, FinishAck)), acts) == Some(t)
    ensures i < |t.nodes| && t.nodes[i] == Node(s.nodes[i].row.(status := Acked, lease := None), s.nodes[i].dlq, Idle)
  {
    FinishedStays(p, Apply(p, s, Act(i, FinishAck)), acts, t, i);
  }

  /** An attempt begun at or after the expiry goes no further, expires the row if it is pending or claimed,
      and publishes nothing; begun earlier it goes on with the row untouched. */
  lemma AttemptsEndAtExpiry(p: Params, s: State, i: nat)
    requires Reachable(p, s) && Enabled(p, s, Act(i, Begin))
    ensures var e, n := EffectOf(p, s, i, Begin), s.nodes[i];
            && e.published.None? && e.won.None? && e.node.dlq == n.dlq
            && (Unexpired(p, s) ==> e.node == n.(pc := Checking(n.pc.rec, Seconds(s.clock))))
            && (!Unexpired(p, s) ==>
                  && e.node.pc.Idle?
                  && e.node.row == if n.row.status in {Pending, Claimed} then n.row.(status := Expired, lease := None)
                                   else n.row)
  {
    ReachableInv(p, s);
    assert NodeInv(p, i, s.clock, s.log, s.nodes[i]);
  }

  /** A sweep expires the row exactly when it is pending or claimed and its time has come; the task working
      on it does not notice. */
  lemma SweepsExpireExactly(p: Params, s: State, i: nat)
    requires Reachable(p, s) && Enabled(p, s, Act(i, Sweep))
    ensures var n, n' := s.nodes[i], EffectOf(p, s, i, Sweep).node;
            && n'.pc == n.pc && n'.dlq == n.dlq
            && n'.row == if !Unexpired(p, s) && n.row.status in {Pending, Claimed}
                         then n.row.(status := Expired, lease := None) else n.row
  {
    ReachableInv(p, s);
    assert NodeInv(p, i, s.clock, s.log, s.nodes[i]);
  }
}
