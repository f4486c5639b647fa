/** The distributed retry generation: nack numbering, MAX-healing and dead-lettering.
    crates/nostr-q/src/lib.rs:285-306, 326-333, 363, 428-494 and crates/nostr-q-store/src/store.rs:351-497. */
module Generations {
  import opened Base
  import opened ClaimProtocol
  import opened Invariants
  import opened Traffic

  /** In every reachable state each row's floor, counter, and every claim and dlq attempt on the log
      stay at or below the highest nack on the log; only a counter whose nack is about to be
      published is one ahead. */
  lemma GenerationBounds(p: Params, s: State)
    requires Reachable(p, s)
    ensures forall i :: 0 <= i < |s.nodes| ==>
              && s.nodes[i].row.floor <= s.nodes[i].row.attempts
              && s.nodes[i].row.attempts <= MaxNack(s.log) + if s.nodes[i].pc.Nacking? then 1 else 0
    ensures forall c :: OnLog(s.log, c) ==> c.attempt <= MaxNack(s.log)
    ensures forall e :: e in s.log && e.DlqEvent? ==> e.attempt <= MaxNack(s.log)
  {
    ReachableInv(p, s);
    forall i | 0 <= i < |s.nodes|
      ensures && s.nodes[i].row.floor <= s.nodes[i].row.attempts
              && s.nodes[i].row.attempts <= MaxNack(s.log) + if s.nodes[i].pc.Nacking? then 1 else 0
    {
      assert NodeInv(p, i, s.clock, s.log, s.nodes[i]);
    }
  }

  // ---- Counters over runs ------------------------------------------------

  lemma StepsOnlyRaise(p: Params, s: State, a: Action, i: nat)
    requires Inv(p, s) && Enabled(p, s, a) && i < |s.nodes|
    ensures var t := Apply(p, s, a);
            && |t.nodes| == |s.nodes|
            && s.nodes[i].row.attempts <= t.nodes[i].row.attempts
            && s.nodes[i].row.floor <= t.nodes[i].row.floor
            && MaxNack(s.log) <= MaxNack(t.log)
            && s.log <= t.log
  {
    if a.Act? {
      assert NodeInv(p, a.i, s.clock, s.log, s.nodes[a.i]);
      RowOnlyRises(p, a.i, s.clock, s.log, s.nodes[a.i], a.move);
      GenerationOnlyRises(s.log, EffectOf(p, s, a.i, a.move).published);
    }
  }

  lemma GenerationOnlyRises(log: seq<Event>, e: Option<Event>)
    ensures MaxNack(log) <= MaxNack(Extend(log, e)) && log <= Extend(log, e)
  {
    if e.Some? {
      Appended(log, e.value);
    }
  }

  /** Over any run no counter, floor or generation decreases and no event leaves the log. */
  lemma {:induction false} CountersNeverDecrease(p: Params, s: State, acts: seq<Action>, t: State, i: nat)
    requires Inv(p, s) && Exec(p, s, acts) == Some(t) && i < |s.nodes|
    ensures |t.nodes| == |s.nodes|
    ensures s.nodes[i].row.attempts <= t.nodes[i].row.attempts
    ensures s.nodes[i].row.floor <= t.nodes[i].row.floor
    ensures MaxNack(s.log) <= MaxNack(t.log) && s.log <= t.log
  {
    if acts != [] {
      var mid := Exec(p, s, acts[..|acts| - 1]).value;
      CountersNeverDecrease(p, s, acts[..|acts| - 1], mid, i);
      InvAlways(p, s, acts[..|acts| - 1], mid);
      StepsOnlyRaise(p, mid, acts[|acts| - 1], i);
    }
  }

  // ---- Numbering of nacks ------------------------------------------------

  lemma {:induction false} MaxNackAttained(log: seq<Event>)
    ensures MaxNack(log) > 0 ==> MaxNack(log) in NacksOf(log)
    ensures forall g :: g in NacksOf(log) ==> g <= MaxNack(log)
  {
    if log != [] {
      MaxNackAttained(log[..|log| - 1]);
    }
  }

  /** The winning decision leaves the row's counter at exactly the generation it was based on, so the
      nack that may follow carries the next one. */
  ghost predicate Level(n: Node) {
    && (n.pc.Handling? ==> n.row.attempts == n.pc.gen)
    && (n.pc.Nacking? ==> n.pc.attempts == n.pc.gen + 1)
  }

  lemma LevelMove(p: Params, s: State, i: nat, m: Move)
    requires TrafficInv(p, s) && Enabled(p, s, Act(i, m)) && Level(s.nodes[i])
    ensures Level(EffectOf(p, s, i, m).node)
  {
    assert NodeInv(p, i, s.clock, s.log, s.nodes[i]) && OwnBounded(p, i, s.clock, s.log, s.nodes[i]);
    if EffectOf(p, s, i, m).won.Some? {
      WinIsOfGeneration(p, i, s.clock, s.log, s.nodes[i], m);
    }
  }

  lemma {:induction false} LevelAlways(p: Params, acts: seq<Action>, t: State, i: nat)
    requires Exec(p, Initial(p), acts) == Some(t) && i < |t.nodes|
    ensures Level(t.nodes[i])
  {
    if acts != [] {
      var before, a := acts[..|acts| - 1], acts[|acts| - 1];
      var s := Exec(p, Initial(p), before).value;
      LevelAlways(p, before, s, i);
      TrafficAlways(p, before, s);
      if a.Act? && a.i == i {
        LevelMove(p, s, i, a.move);
      }
    }
  }

  /** A nack advances the generation by at most one; nothing else moves it. */
  lemma NacksAfter(p: Params, s: State, a: Action)
    requires Inv(p, s) && Enabled(p, s, a)
    ensures var t := Apply(p, s, a);
            if a.Act? && a.move.PublishNack? then
              var pc := s.nodes[a.i].pc;
              && pc.attempts <= MaxNack(s.log) + 1
              && NacksOf(t.log) == NacksOf(s.log) + [pc.attempts] && MaxNack(t.log) == Max(MaxNack(s.log), pc.attempts)
            else NacksOf(t.log) == NacksOf(s.log) && MaxNack(t.log) == MaxNack(s.log)
  {
    if a.Act? {
      PublishedBy(p, s, a.i, a.move);
      var e := EffectOf(p, s, a.i, a.move).published;
      if e.Some? {
        Appended(s.log, e.value);
      }
      if a.move.PublishNack? {
        NackIsAhead(p, s, a.i);
      }
    }
  }

  lemma NoGapOpens(p: Params, s: State, a: Action, g: nat)
    requires Inv(p, s) && Enabled(p, s, a) && 1 <= g <= MaxNack(Apply(p, s, a).log)
    requires g <= MaxNack(s.log) ==> g in NacksOf(s.log)
    ensures g in NacksOf(Apply(p, s, a).log)
  {
    NacksAfter(p, s, a);
    if a.Act? && a.move.PublishNack? && g > MaxNack(s.log) {
      assert g == s.nodes[a.i].pc.attempts;
    }
  }

  /** Generations are never skipped, however nodes interleave: every number from 1 up to the highest
      nack is the attempt of some nack on the log. */
  lemma {:induction false} NoGenerationSkipped(p: Params, acts: seq<Action>, t: State, g: nat)
    requires Exec(p, Initial(p), acts) == Some(t) && 1 <= g <= MaxNack(t.log)
    ensures g in NacksOf(t.log)
  {
    if acts != [] {
      var before := acts[..|acts| - 1];
      var s := Exec(p, Initial(p), before).value;
      assert Reachable(p, s);
      ReachableInv(p, s);
      if g <= MaxNack(s.log) {
        NoGenerationSkipped(p, before, s, g);
      }
      NoGapOpens(p, s, acts[|acts| - 1], g);
    }
  }

  /** Nodes take turns: whenever a nack is published, the relay's generation is still the one its
      author's winning decision was based on, so no foreign nack landed in between. */
  ghost predicate TurnTaking(p: Params, s: State, acts: seq<Action>)
    requires Exec(p, s, acts).Some?
  {
    acts == [] ||
    (&& TurnTaking(p, s, acts[..|acts| - 1])
     && var before, a := Exec(p, s, acts[..|acts| - 1]).value, acts[|acts| - 1];
        a.Act? && a.move.PublishNack? ==> MaxNack(before.log) == before.nodes[a.i].pc.gen)
  }

  ghost predicate Consecutive(nacks: seq<nat>) {
    forall k :: 0 <= k < |nacks| ==> nacks[k] == k + 1
  }

  lemma ConsecutiveMax(log: seq<Event>)
    requires Consecutive(NacksOf(log))
    ensures MaxNack(log) == |NacksOf(log)|
  {
    MaxNackAttained(log);
    var nacks := NacksOf(log);
    if |nacks| > 0 {
      assert nacks[|nacks| - 1] in nacks;
    }
  }

  lemma ConsecutiveSnoc(nacks: seq<nat>, next: nat)
    ensures Consecutive(nacks + [next]) <==> Consecutive(nacks) && next == |nacks| + 1
  {
    var longer := nacks + [next];
    assert longer[|nacks|] == next;
    assert forall k :: 0 <= k < |nacks| ==> longer[k] == nacks[k];
  }

  /** One action keeps the numbering exact just when it takes its turn. */
  lemma TurnStep(p: Params, s: State, a: Action)
    requires Inv(p, s) && Enabled(p, s, a)
    requires a.Act? && a.move.PublishNack? ==> Level(s.nodes[a.i])
    ensures Consecutive(NacksOf(Apply(p, s, a).log))
       <==> Consecutive(NacksOf(s.log)) && (a.Act? && a.move.PublishNack? ==> MaxNack(s.log) == s.nodes[a.i].pc.gen)
  {
    NacksAfter(p, s, a);
    if a.Act? && a.move.PublishNack? {
      ConsecutiveSnoc(NacksOf(s.log), s.nodes[a.i].pc.attempts);
      if Consecutive(NacksOf(s.log)) {
        ConsecutiveMax(s.log);
      }
    }
  }

  /** Exact generations: over every run, the i-th nack on the log carries attempt exactly i for all i
      if and only if the nodes took turns, whichever they were. */
  lemma {:induction false} ExactGenerations(p: Params, acts: seq<Action>, t: State)
    requires Exec(p, Initial(p), acts) == Some(t)
    ensures Consecutive(NacksOf(t.log)) <==> TurnTaking(p, Initial(p), acts)
  {
    if acts != [] {
      var before, a := acts[..|acts| - 1], acts[|acts| - 1];
      var s := Exec(p, Initial(p), before).value;
      ExactGenerations(p, before, s);
      assert Reachable(p, s);
      ReachableInv(p, s);
      if a.Act? {
        LevelAlways(p, before, s, a.i);
      }
      TurnStep(p, s, a);
    }
  }

  // ---- Dead-lettering on the M-th nack -----------------------------------

  ghost predicate NoRetries(acts: seq<Action>) {
    forall k :: 0 <= k < |acts| ==> !(acts[k].Act? && acts[k].move.RetryDead?)
  }

  ghost predicate SharedMax(p: Params, max: nat) {
    forall i :: 0 <= i < |p.nodes| ==> p.nodes[i].maxAttempts == max
  }

  /** Without a retry every floor is still 0, a published nack is on the log, and no dlq event
      carries fewer attempts than the budget. */
  ghost predicate BudgetKept(max: nat, s: State) {
    && (forall i :: 0 <= i < |s.nodes| ==>
          s.nodes[i].row.floor == 0 && (s.nodes[i].pc.Nacked? ==> s.nodes[i].pc.attempts in NacksOf(s.log)))
    && (forall e :: e in s.log && e.DlqEvent? ==> e.attempt >= max)
  }

  lemma FloorsStayLow(p: Params, max: nat, s: State, a: Action, i: nat)
    requires Inv(p, s) && BudgetKept(max, s) && Enabled(p, s, a) && i < |s.nodes|
    requires a.Act? ==> !a.move.RetryDead?
    ensures var n := Apply(p, s, a).nodes[i];
            n.row.floor == 0 && (n.pc.Nacked? ==> n.pc.attempts in NacksOf(Apply(p, s, a).log))
  {
    NacksAfter(p, s, a);
    if a.Act? && a.i == i {
      assert NodeInv(p, i, s.clock, s.log, s.nodes[i]);
      RowOnlyRises(p, i, s.clock, s.log, s.nodes[i], a.move);
    }
  }

  lemma DlqsStayHigh(p: Params, max: nat, s: State, a: Action, e: Event)
    requires Inv(p, s) && SharedMax(p, max) && BudgetKept(max, s) && Enabled(p, s, a)
    requires e in Apply(p, s, a).log && e.DlqEvent?
    ensures e.attempt >= max
  {
    if e !in s.log {
      assert NodeInv(p, a.i, s.clock, s.log, s.nodes[a.i]);
      PublishedBy(p, s, a.i, a.move);
    }
  }

  lemma BudgetKeptStep(p: Params, max: nat, s: State, a: Action)
    requires Inv(p, s) && SharedMax(p, max) && BudgetKept(max, s) && Enabled(p, s, a)
    requires a.Act? ==> !a.move.RetryDead?
    ensures BudgetKept(max, Apply(p, s, a))
  {
    var t := Apply(p, s, a);
    forall i | 0 <= i < |t.nodes|
      ensures t.nodes[i].row.floor == 0 && (t.nodes[i].pc.Nacked? ==> t.nodes[i].pc.attempts in NacksOf(t.log))
    {
      FloorsStayLow(p, max, s, a, i);
    }
    forall e | e in t.log && e.DlqEvent? ensures e.attempt >= max {
      DlqsStayHigh(p, max, s, a, e);
    }
  }

  lemma {:induction false} BudgetKeptAlways(p: Params, max: nat, acts: seq<Action>, t: State)
    requires SharedMax(p, max) && NoRetries(acts) && Exec(p, Initial(p), acts) == Some(t)
    ensures BudgetKept(max, t)
  {
    if acts != [] {
      var s := Exec(p, Initial(p), acts[..|acts| - 1]).value;
      BudgetKeptAlways(p, max, acts[..|acts| - 1], s);
      InitialInv(p);
      InvAlways(p, Initial(p), acts[..|acts| - 1], s);
      BudgetKeptStep(p, max, s, acts[|acts| - 1]);
    }
  }

  /** With turns kept, no retries and a shared budget of M attempts: the node judging its nack holds
      the k-th nack of the log with k its attempt, and dead-letters exactly when k >= M. So the M-th
      nack dead-letters and no earlier one does, and before it there is no dlq event at all. */
  lemma DeadLettersOnLastAttempt(p: Params, max: nat, acts: seq<Action>, s: State)
    requires SharedMax(p, max) && NoRetries(acts)
    requires Exec(p, Initial(p), acts) == Some(s) && TurnTaking(p, Initial(p), acts)
    ensures |s.nodes| == |p.nodes|
    ensures forall i :: 0 <= i < |s.nodes| && s.nodes[i].pc.Nacked? ==>
              var k := s.nodes[i].pc.attempts;
              && 1 <= k <= |NacksOf(s.log)| && NacksOf(s.log)[k - 1] == k
              && EffectOf(p, s, i, JudgeNack).published == (if k >= max then Some(DlqEvent(i, k)) else None)
    ensures |NacksOf(s.log)| < max ==> forall e :: e in s.log ==> !e.DlqEvent?
  {
    ExactGenerations(p, acts, s);
    ConsecutiveMax(s.log);
    BudgetKeptAlways(p, max, acts, s);
    InitialInv(p);
    InvAlways(p, Initial(p), acts, s);
    forall i | 0 <= i < |s.nodes| && s.nodes[i].pc.Nacked?
      ensures var k := s.nodes[i].pc.attempts;
              && 1 <= k <= |NacksOf(s.log)| && NacksOf(s.log)[k - 1] == k
              && EffectOf(p, s, i, JudgeNack).published == (if k >= max then Some(DlqEvent(i, k)) else None)
    {
      assert NodeInv(p, i, s.clock, s.log, s.nodes[i]);
    }
  }
}
