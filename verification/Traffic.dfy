/** One node's own claims over a run: how they supersede each other and how many there can be.
    crates/nostr-q/src/lib.rs:317-373 and 445-455. */
module Traffic {
  import opened Base
  import opened Claims
  import opened ClaimProtocol
  import opened Invariants
  import opened Exclusion

  function OwnClaims(log: seq<Event>, i: nat): seq<ClaimInfo> {
    if log == [] then []
    else
      var e := log[|log| - 1];
      OwnClaims(log[..|log| - 1], i) + if e.ClaimEvent? && e.claim.claimer == i then [e.claim] else []
  }

  lemma OwnClaimsAppend(log: seq<Event>, e: Event, i: nat)
    ensures OwnClaims(log + [e], i)
         == OwnClaims(log, i) + if e.ClaimEvent? && e.claim.claimer == i then [e.claim] else []
  {
    assert (log + [e])[..|log|] == log;
  }

  lemma {:induction false} OwnClaimsAreMembers(log: seq<Event>, i: nat, c: ClaimInfo)
    ensures c in OwnClaims(log, i) <==> OnLog(log, c) && c.claimer == i
  {
    if log != [] {
      OwnClaimsAreMembers(log[..|log| - 1], i, c);
      assert log == log[..|log| - 1] + [log[|log| - 1]];
    }
  }

  /** The earlier of two claims by one node: a full lease older or of a lower generation. */
  predicate Supersedes(lease: nat, older: ClaimInfo, newer: ClaimInfo) {
    && older.leaseExp <= newer.leaseExp && older.attempt <= newer.attempt
    && (older.leaseExp + lease <= newer.leaseExp || older.attempt < newer.attempt)
  }

  ghost predicate Spaced(lease: nat, claims: seq<ClaimInfo>) {
    forall j, k :: 0 <= j < k < |claims| ==> Supersedes(lease, claims[j], claims[k])
  }

  /** How a task's own claims relate to the time and generation it works with. */
  ghost predicate OwnBounded(p: Params, i: nat, clock: nat, log: seq<Event>, n: Node) {
    && (forall c :: OnLog(log, c) && c.claimer == i ==>
          && i < |p.nodes| && Seconds(p.start) <= c.leaseExp - p.nodes[i].lease <= Seconds(clock)
          && (HasNow(n.pc) ==> c.leaseExp - p.nodes[i].lease <= n.pc.now)
          && (HasObserved(n.pc) ==> c.attempt <= n.pc.observed)
          && (n.pc.Handling? ==> c.attempt <= n.row.attempts)
          && (InNack(n.pc) ==> c.attempt < n.row.attempts))
    && (HasNow(n.pc) ==> Seconds(p.start) <= n.pc.now)
    && p.start <= clock
  }

  ghost predicate TrafficInv(p: Params, s: State) {
    && Inv(p, s)
    && (forall i :: 0 <= i < |s.nodes| ==>
          OwnBounded(p, i, s.clock, s.log, s.nodes[i]) && Spaced(p.nodes[i].lease, OwnClaims(s.log, i)))
  }

  lemma OwnBoundedByWin(p: Params, i: nat, clock: nat, log: seq<Event>, n: Node, m: Move)
    requires i < |p.nodes| && NodeInv(p, i, clock, log, n) && LogInv(log) && NodeEnabled(p, clock, log, n, m)
    requires OwnBounded(p, i, clock, log, n) && NodeStep(p.nodes[i], i, clock, log, n, m).won.Some?
    ensures OwnBounded(p, i, clock, log, NodeStep(p.nodes[i], i, clock, log, n, m).node)
  {
    WinIsOfGeneration(p, i, clock, log, n, m);
  }

  lemma OwnBoundedByPublishing(p: Params, i: nat, clock: nat, log: seq<Event>, n: Node, m: Move)
    requires i < |p.nodes| && NodeInv(p, i, clock, log, n) && NodeEnabled(p, clock, log, n, m)
    requires OwnBounded(p, i, clock, log, n) && m.PublishClaim?
    ensures var e := NodeStep(p.nodes[i], i, clock, log, n, m);
            OwnBounded(p, i, clock, Extend(log, e.published), e.node)
  {
    var own := OwnClaim(p.nodes[i], i, n.pc, m.id, m.createdAt);
    assert own.attempt == n.pc.observed;
  }

  lemma OwnBoundedOtherwise(p: Params, i: nat, clock: nat, log: seq<Event>, n: Node, m: Move)
    requires i < |p.nodes| && NodeInv(p, i, clock, log, n) && LogInv(log) && NodeEnabled(p, clock, log, n, m)
    requires OwnBounded(p, i, clock, log, n) && !m.PublishClaim?
    requires NodeStep(p.nodes[i], i, clock, log, n, m).won.None?
    ensures OwnBounded(p, i, clock, log, NodeStep(p.nodes[i], i, clock, log, n, m).node)
  {
  }

  lemma OwnBoundedStep(p: Params, s: State, i: nat, m: Move)
    requires TrafficInv(p, s) && Enabled(p, s, Act(i, m))
    ensures var t := Apply(p, s, Act(i, m)); OwnBounded(p, i, t.clock, t.log, t.nodes[i])
  {
    var n, e, t := s.nodes[i], EffectOf(p, s, i, m), Apply(p, s, Act(i, m));
    assert NodeInv(p, i, s.clock, s.log, n) && OwnBounded(p, i, s.clock, s.log, n);
    PublishedBy(p, s, i, m);
    if m.PublishClaim? {
      OwnBoundedByPublishing(p, i, s.clock, s.log, n, m);
    } else if e.won.Some? {
      OwnBoundedByWin(p, i, s.clock, s.log, n, m);
    } else {
      OwnBoundedOtherwise(p, i, s.clock, s.log, n, m);
      assert forall c :: OnLog(t.log, c) ==> OnLog(s.log, c);
    }
  }

  lemma PublishedIsSpaced(p: Params, s: State, i: nat, m: Move, c: ClaimInfo)
    requires TrafficInv(p, s) && Enabled(p, s, Act(i, m)) && m.PublishClaim? && c in OwnClaims(s.log, i)
    ensures Supersedes(p.nodes[i].lease, c, OwnClaim(p.nodes[i], i, s.nodes[i].pc, m.id, m.createdAt))
  {
    OwnClaimsAreMembers(s.log, i, c);
    assert NodeInv(p, i, s.clock, s.log, s.nodes[i]) && OwnBounded(p, i, s.clock, s.log, s.nodes[i]);
  }

  lemma SpacedStep(p: Params, s: State, a: Action, i: nat)
    requires TrafficInv(p, s) && Enabled(p, s, a) && i < |s.nodes|
    ensures Spaced(p.nodes[i].lease, OwnClaims(Apply(p, s, a).log, i))
  {
    if a.Act? {
      PublishedBy(p, s, a.i, a.move);
      var e := EffectOf(p, s, a.i, a.move).published;
      if e.Some? {
        OwnClaimsAppend(s.log, e.value, i);
        if a.i == i && a.move.PublishClaim? {
          forall c | c in OwnClaims(s.log, i) ensures Supersedes(p.nodes[i].lease, c, e.value.claim) {
            PublishedIsSpaced(p, s, i, a.move, c);
          }
        }
      }
    }
  }

  lemma TrafficStep(p: Params, s: State, a: Action)
    requires TrafficInv(p, s) && Enabled(p, s, a)
    ensures TrafficInv(p, Apply(p, s, a))
  {
    var t := Apply(p, s, a);
    InvStep(p, s, a);
    forall i | 0 <= i < |t.nodes|
      ensures OwnBounded(p, i, t.clock, t.log, t.nodes[i]) && Spaced(p.nodes[i].lease, OwnClaims(t.log, i))
    {
      assert OwnBounded(p, i, s.clock, s.log, s.nodes[i]);
      SpacedStep(p, s, a, i);
      if a.Act? {
        PublishedBy(p, s, a.i, a.move);
        if a.i == i {
          OwnBoundedStep(p, s, i, a.move);
        }
      }
    }
  }

  lemma {:induction false} TrafficAlways(p: Params, acts: seq<Action>, t: State)
    requires Exec(p, Initial(p), acts) == Some(t)
    ensures TrafficInv(p, t)
  {
    if acts == [] {
      InitialInv(p);
    } else {
      var s := Exec(p, Initial(p), acts[..|acts| - 1]).value;
      TrafficAlways(p, acts[..|acts| - 1], s);
      TrafficStep(p, s, acts[|acts| - 1]);
    }
  }

  // ---- Results -----------------------------------------------------------

  /** At any time at most the newest of a node's claims is live and of the current generation. */
  lemma OnlyNewestOwnClaimIsCurrent(p: Params, s: State, i: nat, j: nat)
    requires Reachable(p, s) && i < |s.nodes| && j < |OwnClaims(s.log, i)| - 1
    ensures !Current(s, OwnClaims(s.log, i)[j])
  {
    var acts :| Exec(p, Initial(p), acts) == Some(s);
    TrafficAlways(p, acts, s);
    var claims := OwnClaims(s.log, i);
    var newest := claims[|claims| - 1];
    assert Supersedes(p.nodes[i].lease, claims[j], newest);
    OwnClaimsAreMembers(s.log, i, newest);
    assert OwnBounded(p, i, s.clock, s.log, s.nodes[i]);
  }

  /** Once a node nacks at attempt n, every claim it ever made has an attempt below n: no survey at
      the new generation, at any time, counts one of them. */
  lemma OwnPastIsReleasedByNack(p: Params, s: State, i: nat, c: ClaimInfo, minAttempt: nat, now: int)
    requires Reachable(p, s) && Enabled(p, s, Act(i, PublishNack))
    requires OnLog(s.log, c) && c.claimer == i
    requires minAttempt >= MaxNack(Apply(p, s, Act(i, PublishNack)).log)
    ensures c.attempt < s.nodes[i].pc.attempts && !Live(c, minAttempt, now)
  {
    var acts :| Exec(p, Initial(p), acts) == Some(s);
    TrafficAlways(p, acts, s);
    assert NodeInv(p, i, s.clock, s.log, s.nodes[i]) && OwnBounded(p, i, s.clock, s.log, s.nodes[i]);
    Appended(s.log, NackEvent(i, s.nodes[i].pc.attempts));
  }

  lemma MulMonotone(j: int, k: int, d: nat)
    requires j <= k
    ensures j * d <= k * d
  {
    assert k * d == j * d + (k - j) * d;
  }

  lemma QuotientBound(k: int, x: nat, d: nat)
    requires d >= 1 && k * d <= x
    ensures k <= x / d
  {
    assert x == x / d * d + x % d && (x / d + 1) * d == x / d * d + d;
    if k > x / d {
      MulMonotone(x / d + 1, k, d);
    }
  }

  /** Spaced claims are few: each one past the first took a full lease or a higher generation. */
  lemma {:induction false} SpacedAreFew(lease: nat, claims: seq<ClaimInfo>)
    requires Spaced(lease, claims) && |claims| >= 1
    ensures var first, last := claims[0], claims[|claims| - 1];
            && first.leaseExp <= last.leaseExp && first.attempt <= last.attempt
            && (|claims| - 1 - (last.attempt - first.attempt)) * lease <= last.leaseExp - first.leaseExp
  {
    if |claims| > 1 {
      var init := claims[..|claims| - 1];
      SpacedAreFew(lease, init);
      var first, prev, last := claims[0], init[|init| - 1], claims[|claims| - 1];
      assert prev == claims[|claims| - 2];
      assert Supersedes(lease, prev, last);
      var before := |init| - 1 - (prev.attempt - first.attempt);
      var after := |claims| - 1 - (last.attempt - first.attempt);
      if prev.attempt < last.attempt {
        MulMonotone(after, before, lease);
      } else {
        assert after == before + 1 && after * lease == before * lease + lease;
      }
    }
  }

  lemma FewWithin(lease: nat, claims: seq<ClaimInfo>, lo: nat, hi: nat, top: nat)
    requires lease >= 1 && Spaced(lease, claims) && lo <= hi
    requires forall c :: c in claims ==> lo <= c.leaseExp - lease <= hi && c.attempt <= top
    ensures |claims| <= 1 + (hi - lo) / lease + top
  {
    QuotientBound(0, hi - lo, lease);
    if |claims| >= 1 {
      SpacedAreFew(lease, claims);
      var first, last := claims[0], claims[|claims| - 1];
      MulMonotone(|claims| - 1 - top, |claims| - 1 - (last.attempt - first.attempt), lease);
      QuotientBound(|claims| - 1 - top, hi - lo, lease);
    }
  }

  /** Claim traffic: over any run one node publishes at most one claim, plus one for each full lease
      that has elapsed, plus one for each generation on the log. */
  lemma ClaimTrafficBound(p: Params, s: State, i: nat)
    requires Reachable(p, s) && i < |s.nodes| && i < |p.nodes| && p.nodes[i].lease >= 1
    ensures Seconds(s.clock) >= Seconds(p.start)
    ensures |OwnClaims(s.log, i)| <= 1 + (Seconds(s.clock) - Seconds(p.start)) / p.nodes[i].lease + MaxNack(s.log)
  {
    var acts :| Exec(p, Initial(p), acts) == Some(s);
    TrafficAlways(p, acts, s);
    assert OwnBounded(p, i, s.clock, s.log, s.nodes[i]);
    forall c | c in OwnClaims(s.log, i)
      ensures Seconds(p.start) <= c.leaseExp - p.nodes[i].lease <= Seconds(s.clock) && c.attempt <= MaxNack(s.log)
    {
      OwnClaimsAreMembers(s.log, i, c);
    }
    FewWithin(p.nodes[i].lease, OwnClaims(s.log, i), Seconds(p.start), Seconds(s.clock), MaxNack(s.log));
  }
}
