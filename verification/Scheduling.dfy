/** Delayed delivery and expiry over whole runs: crates/nostr-q-store/src/store.rs:285-324, 374-380,
    486-497 and crates/nostr-q/src/lib.rs:236-247. */
module Scheduling {
  import opened Base
  import opened Rows
  import opened Backoff
  import opened ClaimProtocol
  import opened Invariants

  predicate Deliverable(p: Params, clock: nat) {
    p.notBefore.Some? ==> p.notBefore.value <= Seconds(clock)
  }

  /** Until the message is deliverable, nobody has worked on the row and it is still deferred. */
  predicate Deferred(p: Params, n: Node) {
    && n.pc.Idle? && (n.row.status == Pending || n.row.status == Expired)
    && (p.notBefore.Some? ==> n.row.visibleAt >= p.notBefore.value)
  }

  ghost predicate Waiting(p: Params, s: State) {
    forall i :: 0 <= i < |s.nodes| ==> Deliverable(p, s.clock) || Deferred(p, s.nodes[i])
  }

  lemma {:induction false} WaitingAlways(p: Params, acts: seq<Action>, t: State)
    requires Exec(p, Initial(p), acts) == Some(t)
    ensures Waiting(p, t)
  {
    if acts != [] {
      var s := Exec(p, Initial(p), acts[..|acts| - 1]).value;
      WaitingAlways(p, acts[..|acts| - 1], s);
      var a := acts[|acts| - 1];
      forall i | 0 <= i < |t.nodes| ensures Deliverable(p, t.clock) || Deferred(p, t.nodes[i]) {
        assert Deliverable(p, s.clock) || Deferred(p, s.nodes[i]);
        assert Seconds(s.clock) <= Seconds(t.clock);
      }
    }
  }

  /** Through any number of retries and dlq retries, a poll never selects the message before its
      not-before time or at or past its expiry. */
  lemma PollsWithinWindow(p: Params, s: State, i: nat)
    requires Reachable(p, s) && Enabled(p, s, Act(i, Poll))
    ensures Deliverable(p, s.clock)
    ensures p.expiresAt.Some? ==> Seconds(s.clock) < p.expiresAt.value
  {
    var acts :| Exec(p, Initial(p), acts) == Some(s);
    WaitingAlways(p, acts, s);
    ReachableInv(p, s);
    assert NodeInv(p, i, s.clock, s.log, s.nodes[i]);
    assert Deliverable(p, s.clock) || Deferred(p, s.nodes[i]);
  }

  /** When a claim lands, the time its author read at the start of the attempt lay inside the
      message's window; the claim's lease is counted from that time. */
  lemma ClaimsWithinWindow(p: Params, s: State, i: nat, id: nat, createdAt: int)
    requires Reachable(p, s) && Enabled(p, s, Act(i, PublishClaim(id, createdAt)))
    ensures Deliverable(p, s.clock)
    ensures exists c :: EffectOf(p, s, i, PublishClaim(id, createdAt)).published == Some(ClaimEvent(c))
              && (p.expiresAt.Some? ==> c.leaseExp - p.nodes[i].lease < p.expiresAt.value)
  {
    var acts :| Exec(p, Initial(p), acts) == Some(s);
    WaitingAlways(p, acts, s);
    ReachableInv(p, s);
    assert NodeInv(p, i, s.clock, s.log, s.nodes[i]);
    assert Deliverable(p, s.clock) || Deferred(p, s.nodes[i]);
    var c := OwnClaim(p.nodes[i], i, s.nodes[i].pc, id, createdAt);
    assert EffectOf(p, s, i, PublishClaim(id, createdAt)).published == Some(ClaimEvent(c));
  }

  /** A row waits at most an hour after a nack: in every reachable state `visible_at` is the
      message's own initial value, 0 after a dlq retry, or within an hour of now. */
  lemma {:induction false} NoWaitBeyondAnHour(p: Params, acts: seq<Action>, t: State, i: nat)
    requires Exec(p, Initial(p), acts) == Some(t) && i < |t.nodes|
    ensures t.nodes[i].row.visibleAt <= Max(FreshRow(p).visibleAt, Seconds(t.clock) + MAX_BACKOFF)
  {
    if acts != [] {
      var s := Exec(p, Initial(p), acts[..|acts| - 1]).value;
      NoWaitBeyondAnHour(p, acts[..|acts| - 1], s, i);
      assert Seconds(s.clock) <= Seconds(t.clock);
    }
  }
}
