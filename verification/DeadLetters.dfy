/** Dead-letter events, retries and the retry budget: crates/nostr-q/src/lib.rs:259-315, 418-494
    and crates/nostr-q-store/src/store.rs:412-497. */
module DeadLetters {
  import opened Base
  import opened Rows
  import opened ClaimProtocol
  import opened Invariants
  import opened Generations

  // ---- Rows are backed by the relay --------------------------------------

  /** In every reachable state: an acked row has an ack event behind it; a row is dead exactly when
      the dlq table has an entry for it, the entry carries the row's counter, and a dlq event above
      the row's floor is on the log; a claimed row records the lease of a claim of its own node. */
  lemma RowsAreBacked(p: Params, s: State, i: nat)
    requires Reachable(p, s) && i < |s.nodes|
    ensures var n := s.nodes[i];
            && (n.row.status == Acked ==> HasAck(s.log))
            && (n.row.status == Dead <==> n.dlq.Some?)
            && (n.row.status == Dead ==> n.dlq == Some(n.row.attempts) && exists e :: TerminalDlq(s.log, n.row, e))
            && (n.row.status == Claimed ==> exists c :: Backs(i, s.log, n.row, c))
  {
    ReachableInv(p, s);
    assert NodeInv(p, i, s.clock, s.log, s.nodes[i]);
  }

  // ---- A dlq event kills a row at most once ------------------------------

  /** A dlq event of attempt `a` cannot end this row again: the row is dead already with a counter
      that any retry turns into a floor of at least `a`, or the floor is there. */
  predicate Defused(n: Node, a: nat) {
    a <= n.row.attempts && (n.row.status == Dead || a <= n.row.floor)
  }

  lemma DefusedStep(p: Params, i: nat, clock: nat, log: seq<Event>, n: Node, m: Move, a: nat)
    requires i < |p.nodes| && Shape(p, clock, n) && NodeEnabled(p, clock, log, n, m) && Defused(n, a)
    ensures Defused(NodeStep(p.nodes[i], i, clock, log, n, m).node, a)
  {
  }

  lemma {:induction false} DefusedForever(p: Params, s: State, acts: seq<Action>, t: State, i: nat, a: nat)
    requires Inv(p, s) && Exec(p, s, acts) == Some(t) && i < |s.nodes| && Defused(s.nodes[i], a)
    ensures i < |t.nodes| && Defused(t.nodes[i], a)
  {
    if acts != [] {
      var mid := Exec(p, s, acts[..|acts| - 1]).value;
      DefusedForever(p, s, acts[..|acts| - 1], mid, i, a);
      InvAlways(p, s, acts[..|acts| - 1], mid);
      assert NodeInv(p, i, mid.clock, mid.log, mid.nodes[i]);
      var last := acts[|acts| - 1];
      if last.Act? && last.i == i {
        DefusedStep(p, i, mid.clock, mid.log, mid.nodes[i], last.move, a);
      }
    }
  }

  /** Whether a terminal check on node `i` right now would dead-letter its row because of events
      carrying attempt `a`. An ack is looked for first and ends the check. */
  ghost predicate WouldKill(s: State, i: nat, a: nat) {
    i < |s.nodes| && s.nodes[i].pc.Checking? && !HasAck(s.log) && a > s.nodes[i].pc.rec.floor
  }

  /** A terminal check dead-letters the row exactly when some dlq event on the log would kill it. */
  lemma ChecksKillExactly(p: Params, s: State, i: nat)
    requires Reachable(p, s) && Enabled(p, s, Act(i, CheckTerminal))
    ensures EffectOf(p, s, i, CheckTerminal).node.row.status == Dead
       <==> exists e :: e in s.log && e.DlqEvent? && WouldKill(s, i, e.attempt)
  {
    ReachableInv(p, s);
    assert NodeInv(p, i, s.clock, s.log, s.nodes[i]);
    MaxDlqBounds(s.log, AckEvent(0));
    forall e | e in s.log && e.DlqEvent? ensures MaxDlq(s.log).Some? && e.attempt <= MaxDlq(s.log).value {
      MaxDlqBounds(s.log, e);
    }
  }

  /** Whether a terminal check on node `i` right now would leave its counter at or above attempt `a` of
      a dlq event on the log. */
  ghost predicate WouldHeal(s: State, i: nat, a: nat)
    requires i < |s.nodes|
  {
    !HasAck(s.log) || a <= s.nodes[i].row.attempts
  }

  lemma DefusedNeverKills(p: Params, s: State, i: nat, a: nat)
    requires Inv(p, s) && i < |s.nodes| && Defused(s.nodes[i], a)
    ensures !WouldKill(s, i, a)
    ensures s.nodes[i].row.status == Dead ==> a <= Retried(s.nodes[i].row).floor
  {
    assert NodeInv(p, i, s.clock, s.log, s.nodes[i]);
  }

  lemma CheckDefuses(p: Params, s: State, i: nat, e: Event)
    requires Inv(p, s) && Enabled(p, s, Act(i, CheckTerminal)) && !HasAck(s.log) && e in s.log && e.DlqEvent?
    ensures Defused(Apply(p, s, Act(i, CheckTerminal)).nodes[i], e.attempt)
  {
    assert NodeInv(p, i, s.clock, s.log, s.nodes[i]);
    MaxDlqBounds(s.log, e);
  }

  /** Observing a dlq event brings the row's counter up to its attempt if and only if no ack is on the
      log or the counter was that high already. */
  lemma CheckHealsExactly(p: Params, s: State, i: nat, e: Event)
    requires Reachable(p, s) && Enabled(p, s, Act(i, CheckTerminal)) && e in s.log && e.DlqEvent?
    ensures e.attempt <= Apply(p, s, Act(i, CheckTerminal)).nodes[i].row.attempts <==> WouldHeal(s, i, e.attempt)
  {
    ReachableInv(p, s);
    if !HasAck(s.log) {
      CheckDefuses(p, s, i, e);
    }
  }

  lemma {:induction false} AcksStay(p: Params, s: State, acts: seq<Action>, t: State)
    requires HasAck(s.log) && Exec(p, s, acts) == Some(t)
    ensures HasAck(t.log)
  {
    if acts != [] {
      var mid := Exec(p, s, acts[..|acts| - 1]).value;
      AcksStay(p, s, acts[..|acts| - 1], mid);
      var ack :| ack in mid.log && ack.AckEvent?;
      assert ack in t.log;
    }
  }

  /** What a check without an ack saw stays defused. */
  lemma ObservedIsDefused(p: Params, s: State, i: nat, e: Event, acts: seq<Action>, t: State)
    requires Reachable(p, s) && Enabled(p, s, Act(i, CheckTerminal)) && !HasAck(s.log)
    requires e in s.log && e.DlqEvent?
    requires Exec(p, Apply(p, s, Act(i, CheckTerminal)), acts) == Some(t)
    ensures Inv(p, t) && i < |t.nodes| && Defused(t.nodes[i], e.attempt)
  {
    ReachableInv(p, s);
    InvStep(p, s, Act(i, CheckTerminal));
    CheckDefuses(p, s, i, e);
    DefusedForever(p, Apply(p, s, Act(i, CheckTerminal)), acts, t, i, e.attempt);
    InvAlways(p, Apply(p, s, Act(i, CheckTerminal)), acts, t);
  }

  /** Every dlq event that a terminal check saw, whether or not it ended the row then, never ends
      that node's row again, over any run and any number of retries. */
  lemma ObservedDlqNeverKillsAgain(p: Params, s: State, i: nat, e: Event, acts: seq<Action>, t: State)
    requires Reachable(p, s) && Enabled(p, s, Act(i, CheckTerminal)) && e in s.log && e.DlqEvent?
    requires Exec(p, Apply(p, s, Act(i, CheckTerminal)), acts) == Some(t)
    ensures i < |s.nodes| && !WouldKill(t, i, e.attempt)
  {
    if HasAck(s.log) {
      AcksStay(p, Apply(p, s, Act(i, CheckTerminal)), acts, t);
    } else {
      ObservedIsDefused(p, s, i, e, acts, t);
      DefusedNeverKills(p, t, i, e.attempt);
    }
  }

  lemma RetryLiftsFloor(p: Params, s: State, i: nat)
    requires Enabled(p, s, Act(i, RetryDead))
    ensures Apply(p, s, Act(i, RetryDead)).nodes[i].row.floor == s.nodes[i].row.attempts
  {
  }

  /** Once a check has healed the row to a dlq event's attempt, the counter never falls below it
      again and every retry raises the floor to at least it. */
  lemma RetriesRiseAboveObserved(p: Params, s: State, i: nat, e: Event, acts: seq<Action>, t: State)
    requires Reachable(p, s) && Enabled(p, s, Act(i, CheckTerminal)) && e in s.log && e.DlqEvent?
    requires WouldHeal(s, i, e.attempt)
    requires Exec(p, Apply(p, s, Act(i, CheckTerminal)), acts) == Some(t)
    ensures i < |t.nodes| && e.attempt <= t.nodes[i].row.attempts
    ensures Enabled(p, t, Act(i, RetryDead)) ==> e.attempt <= Apply(p, t, Act(i, RetryDead)).nodes[i].row.floor
  {
    ReachableInv(p, s);
    var s' := Apply(p, s, Act(i, CheckTerminal));
    InvStep(p, s, Act(i, CheckTerminal));
    CheckHealsExactly(p, s, i, e);
    CountersNeverDecrease(p, s', acts, t, i);
    if Enabled(p, t, Act(i, RetryDead)) {
      RetryLiftsFloor(p, t, i);
    }
  }

  /** The same holds of the dlq event a node published itself, from the moment it has dead-lettered
      its own row. */
  lemma PublishedDlqNeverKills(p: Params, s: State, i: nat, acts: seq<Action>, t: State)
    requires Reachable(p, s) && Enabled(p, s, Act(i, FinishDead))
    requires Exec(p, Apply(p, s, Act(i, FinishDead)), acts) == Some(t)
    ensures DlqEvent(i, s.nodes[i].pc.attempts) in s.log
    ensures i < |t.nodes| && s.nodes[i].pc.attempts <= t.nodes[i].row.attempts
    ensures !WouldKill(t, i, s.nodes[i].pc.attempts)
  {
    ReachableInv(p, s);
    assert NodeInv(p, i, s.clock, s.log, s.nodes[i]);
    var s' := Apply(p, s, Act(i, FinishDead));
    InvStep(p, s, Act(i, FinishDead));
    DefusedForever(p, s', acts, t, i, s.nodes[i].pc.attempts);
    InvAlways(p, s', acts, t);
    DefusedNeverKills(p, t, i, s.nodes[i].pc.attempts);
  }

  // ---- Retry budget ------------------------------------------------------

  /** Nacks node `i` has published since its last dlq retry. */
  function NacksSinceRetry(acts: seq<Action>, i: nat): nat {
    if acts == [] then 0
    else
      var last := acts[|acts| - 1];
      var before := NacksSinceRetry(acts[..|acts| - 1], i);
      if last == Act(i, RetryDead) then 0
      else if last == Act(i, PublishNack) then before + 1
      else before
  }

  function Budget(max: nat): nat {
    Max(max, 1)
  }

  /** Where the node stands with `k` nacks since its last retry. */
  ghost predicate WithinBudget(max: nat, n: Node, k: nat) {
    && k + (if n.pc.Nacking? then 1 else 0) <= n.row.attempts - n.row.floor
    && k <= Budget(max)
    && (n.row.status != Dead && !n.pc.Nacked? && !n.pc.DeadLettering? ==> k < Budget(max))
  }

  lemma WithinBudgetStep(p: Params, i: nat, clock: nat, log: seq<Event>, n: Node, m: Move, k: nat)
    requires i < |p.nodes| && Shape(p, clock, n) && NodeEnabled(p, clock, log, n, m)
    requires WithinBudget(p.nodes[i].maxAttempts, n, k)
    ensures WithinBudget(p.nodes[i].maxAttempts, NodeStep(p.nodes[i], i, clock, log, n, m).node,
                         if m.RetryDead? then 0 else if m.PublishNack? then k + 1 else k)
  {
  }

  /** A node publishes at most max(M, 1) nacks between consecutive retries, and every nack but the
      last of them leaves budget for another attempt. */
  lemma {:induction false} RetryBudget(p: Params, acts: seq<Action>, s: State, i: nat)
    requires Exec(p, Initial(p), acts) == Some(s) && i < |p.nodes|
    ensures i < |s.nodes| && WithinBudget(p.nodes[i].maxAttempts, s.nodes[i], NacksSinceRetry(acts, i))
    ensures NacksSinceRetry(acts, i) <= Budget(p.nodes[i].maxAttempts)
  {
    if acts != [] {
      var before, last := acts[..|acts| - 1], acts[|acts| - 1];
      var mid := Exec(p, Initial(p), before).value;
      RetryBudget(p, before, mid, i);
      InitialInv(p);
      InvAlways(p, Initial(p), before, mid);
      assert NodeInv(p, i, mid.clock, mid.log, mid.nodes[i]);
      if last.Act? && last.i == i {
        WithinBudgetStep(p, i, mid.clock, mid.log, mid.nodes[i], last.move, NacksSinceRetry(before, i));
      }
    }
  }

  /** Attempts left before a nack dead-letters. */
  function Left(max: nat, row: Row): nat {
    Max(0, max - (row.attempts - row.floor))
  }

  /** Between retries the attempts left never grow, and every nack uses one up while any is left:
      a termination measure for the retry loop. A nack dead-letters exactly when it leaves none. */
  lemma NacksUseUpAttempts(p: Params, s: State, i: nat, m: Move)
    requires Reachable(p, s) && Enabled(p, s, Act(i, m)) && !m.RetryDead?
    ensures var max, n, n' := p.nodes[i].maxAttempts, s.nodes[i], EffectOf(p, s, i, m).node;
            && Left(max, n'.row) <= Left(max, n.row)
            && (m.StartNack? && Left(max, n.row) > 0 ==> Left(max, n'.row) == Left(max, n.row) - 1)
            && (m.JudgeNack? ==> (n'.pc.DeadLettering? <==> Left(max, n.row) == 0))
            && (m.JudgeNack? ==> (n'.pc.Idle? && n'.row.status == Pending <==> Left(max, n.row) > 0))
  {
    ReachableInv(p, s);
    assert NodeInv(p, i, s.clock, s.log, s.nodes[i]);
    RowOnlyRises(p, i, s.clock, s.log, s.nodes[i], m);
  }

  ghost predicate OnlyNode(acts: seq<Action>, i: nat) {
    forall k :: 0 <= k < |acts| ==> acts[k].Act? ==> acts[k].i == i
  }

  /** Every generation came from this node and its counter is level with its own nacks. */
  ghost predicate Alone(s: State, i: nat, k: nat) {
    && i < |s.nodes|
    && MaxNack(s.log) <= s.nodes[i].row.attempts
    && s.nodes[i].row.attempts - s.nodes[i].row.floor == k + if s.nodes[i].pc.Nacking? then 1 else 0
  }

  lemma AloneWins(p: Params, s: State, i: nat, m: Move, k: nat)
    requires Inv(p, s) && Enabled(p, s, Act(i, m)) && Alone(s, i, k) && EffectOf(p, s, i, m).won.Some?
    ensures Alone(Apply(p, s, Act(i, m)), i, k) && !m.RetryDead? && !m.PublishNack?
  {
    assert NodeInv(p, i, s.clock, s.log, s.nodes[i]);
    PublishedBy(p, s, i, m);
    WinIsOfGeneration(p, i, s.clock, s.log, s.nodes[i], m);
  }

  lemma AlonePublishes(p: Params, s: State, i: nat, m: Move, k: nat)
    requires Inv(p, s) && Enabled(p, s, Act(i, m)) && Alone(s, i, k) && EffectOf(p, s, i, m).published.Some?
    ensures Alone(Apply(p, s, Act(i, m)), i, if m.PublishNack? then k + 1 else k) && !m.RetryDead?
  {
    assert NodeInv(p, i, s.clock, s.log, s.nodes[i]);
    PublishedBy(p, s, i, m);
    Appended(s.log, EffectOf(p, s, i, m).published.value);
  }

  lemma AloneStep(p: Params, s: State, i: nat, m: Move, k: nat)
    requires Inv(p, s) && Enabled(p, s, Act(i, m)) && Alone(s, i, k)
    requires MaxDlq(s.log).Some? ==> MaxDlq(s.log).value <= s.nodes[i].row.attempts
    ensures Alone(Apply(p, s, Act(i, m)), i, if m.RetryDead? then 0 else if m.PublishNack? then k + 1 else k)
  {
    if EffectOf(p, s, i, m).won.Some? {
      AloneWins(p, s, i, m, k);
    } else if EffectOf(p, s, i, m).published.Some? {
      AlonePublishes(p, s, i, m, k);
    } else {
      assert NodeInv(p, i, s.clock, s.log, s.nodes[i]);
    }
  }

  lemma {:induction false} AloneAlways(p: Params, acts: seq<Action>, s: State, i: nat)
    requires Exec(p, Initial(p), acts) == Some(s) && i < |p.nodes| && OnlyNode(acts, i)
    ensures Alone(s, i, NacksSinceRetry(acts, i))
  {
    if acts != [] {
      var before, last := acts[..|acts| - 1], acts[|acts| - 1];
      var mid := Exec(p, Initial(p), before).value;
      AloneAlways(p, before, mid, i);
      InitialInv(p);
      InvAlways(p, Initial(p), before, mid);
      if last.Act? {
        MaxDlqBounds(mid.log, AckEvent(0));
        AloneStep(p, mid, i, last.move, NacksSinceRetry(before, i));
      }
    }
  }

  /** When no foreign worker acts the budget is used up exactly: the judgement after the k-th nack
      since the last retry dead-letters if and only if k >= M. */
  lemma AloneTheBudgetIsExact(p: Params, acts: seq<Action>, s: State, i: nat)
    requires Exec(p, Initial(p), acts) == Some(s) && i < |p.nodes| && OnlyNode(acts, i)
    requires Enabled(p, s, Act(i, JudgeNack))
    ensures EffectOf(p, s, i, JudgeNack).node.pc.DeadLettering? <==> NacksSinceRetry(acts, i) >= p.nodes[i].maxAttempts
  {
    AloneAlways(p, acts, s, i);
    InitialInv(p);
    InvAlways(p, Initial(p), acts, s);
    assert NodeInv(p, i, s.clock, s.log, s.nodes[i]);
  }
}
