/** What can go wrong, and what cannot, when a handler outlives its lease and another node wins the
    message again: two nacks of the same generation, and an ack beside a dead letter. */
module LateHandlers {
  import opened Base
  import opened Claims
  import opened Rows
  import opened ClaimProtocol
  import opened Invariants
  import opened SoloRuns
  import opened Generations
  import opened DeadLetters

  /** Two nodes whose leases last at least a second, and a message that never expires. */
  predicate TwoWorkers(p: Params) {
    && |p.nodes| >= 2 && p.nodes[0].lease >= 1 && p.nodes[1].lease >= 1
    && p.expiresAt.None? && Claimable(FreshRow(p), Seconds(p.start))
  }

  /** Node 0 wins, its lease runs out, node 1 wins. */
  function BothWin(p: Params): seq<Action>
    requires TwoWorkers(p)
  {
    Survey(0) + Settlement(p, 0, 1, 1) + [Tick(1000 * p.nodes[0].lease)] + Survey(1) + Settlement(p, 1, 2, 2)
  }

  /** Node 0 has won and its lease has run out; the other nodes have done nothing. */
  lemma FirstLeaseRunsOut(p: Params) returns (c: ClaimInfo, s: State)
    requires TwoWorkers(p)
    ensures Exec(p, Initial(p), Survey(0) + Settlement(p, 0, 1, 1) + [Tick(1000 * p.nodes[0].lease)]) == Some(s)
    ensures Inv(p, s) && s.log == [ClaimEvent(c)] && c.id == 1 && c.attempt == 0 && c.leaseExp <= Seconds(s.clock)
    ensures |s.nodes| == |p.nodes| && s.nodes == Initial(p).nodes[0 := s.nodes[0]] && s.clock >= p.start
    ensures s.nodes[0].pc == Handling(0) && s.nodes[0].row.attempts == 0
  {
    InitialInv(p);
    var s0;
    c, s0 := SoloContends(p, Initial(p), 0, 1, 1);
    assert s0.log == [ClaimEvent(c)];
    var wait := Tick(1000 * p.nodes[0].lease);
    s := Apply(p, s0, wait);
    ExecSnoc(p, Initial(p), Survey(0) + Settlement(p, 0, 1, 1), wait);
    InvAlways(p, Initial(p), Survey(0) + Settlement(p, 0, 1, 1) + [wait], s);
  }

  lemma SecondCanWin(p: Params, s: State, c: ClaimInfo) returns (t: State)
    requires TwoWorkers(p) && Inv(p, s) && s.log == [ClaimEvent(c)]
    requires c.id == 1 && c.attempt == 0 && c.leaseExp <= Seconds(s.clock)
    requires |s.nodes| == |p.nodes| && s.nodes == Initial(p).nodes[0 := s.nodes[0]] && s.clock >= p.start
    ensures Exec(p, s, Survey(1) + Settlement(p, 1, 2, 2)) == Some(t)
    ensures |t.log| == 2 && t.log[0].ClaimEvent? && t.log[1].ClaimEvent?
    ensures |t.nodes| == |p.nodes| && t.nodes == s.nodes[1 := t.nodes[1]] && t.clock >= p.start
    ensures t.nodes[1].pc == Handling(0) && t.nodes[1].row.attempts == 0
  {
    Appended([], ClaimEvent(c));
    assert s.log == [] + [ClaimEvent(c)];
    WinnerIsLeastLive([c], 0, Seconds(s.clock));
    assert Seconds(p.start) <= Seconds(s.clock);
    var d;
    d, t := SoloContends(p, s, 1, 2, 2);
  }

  lemma BothCanWin(p: Params) returns (t: State)
    requires TwoWorkers(p)
    ensures Exec(p, Initial(p), BothWin(p)) == Some(t)
    ensures |t.log| == 2 && t.log[0].ClaimEvent? && t.log[1].ClaimEvent?
    ensures |t.nodes| == |p.nodes| && t.nodes == Initial(p).nodes[0 := t.nodes[0]][1 := t.nodes[1]]
    ensures t.clock >= p.start
    ensures forall i :: 0 <= i < 2 ==> t.nodes[i].pc == Handling(0) && t.nodes[i].row.attempts == 0
  {
    var c, s := FirstLeaseRunsOut(p);
    t := SecondCanWin(p, s, c);
    var first := Survey(0) + Settlement(p, 0, 1, 1) + [Tick(1000 * p.nodes[0].lease)];
    ExecConcat(p, Initial(p), first, Survey(1) + Settlement(p, 1, 2, 2));
    assert first + (Survey(1) + Settlement(p, 1, 2, 2)) == BothWin(p);
  }

  function NackActs(i: nat): seq<Action> {
    [Act(i, StartNack), Act(i, PublishNack)]
  }

  function NackedState(s: State, i: nat): State
    requires i < |s.nodes|
  {
    var row := IncrAttempts(s.nodes[i].row);
    s.(log := s.log + [NackEvent(i, row.attempts)],
       nodes := s.nodes[i := Node(row, s.nodes[i].dlq, Nacked(row.floor, row.attempts))])
  }

  lemma NackLands(p: Params, s: State, i: nat)
    requires i < |s.nodes| == |p.nodes| && s.nodes[i].pc.Handling?
    ensures Exec(p, s, NackActs(i)) == Some(NackedState(s, i))
  {
    var n := s.nodes[i];
    var row := IncrAttempts(n.row);
    var n1 := n.(row := row, pc := Nacking(n.pc.gen, row.floor, row.attempts));
    assert s.nodes[i := n] == s.nodes;
    OneMore(p, s, [], s, i, StartNack, Quiet(n1));
    OneMore(p, s, [] + [Act(i, StartNack)], s.(nodes := s.nodes[i := n1]), i, PublishNack,
            Effect(n1.(pc := Nacked(row.floor, row.attempts)), Some(NackEvent(i, row.attempts)), None));
    assert [] + [Act(i, StartNack)] + [Act(i, PublishNack)] == NackActs(i);
  }

  /** Both nodes nack at attempt 1, so turn-taking is a real condition on runs. */
  lemma LateHandlersCollide(p: Params)
    requires TwoWorkers(p)
    ensures var acts := BothWin(p) + NackActs(0) + NackActs(1);
            var t := Exec(p, Initial(p), acts);
            t.Some? && NacksOf(t.value.log) == [1, 1] && !TurnTaking(p, Initial(p), acts)
  {
    var s := BothCanWin(p);
    NackLands(p, s, 0);
    ExecConcat(p, Initial(p), BothWin(p), NackActs(0));
    var s' := NackedState(s, 0);
    NackLands(p, s', 1);
    ExecConcat(p, Initial(p), BothWin(p) + NackActs(0), NackActs(1));
    var t := NackedState(s', 1);
    TwoNacks(s.log);
    ExactGenerations(p, BothWin(p) + NackActs(0) + NackActs(1), t);
    assert NacksOf(t.log)[1] == 1;
  }

  lemma TwoNacks(log: seq<Event>)
    requires |log| == 2 && log[0].ClaimEvent? && log[1].ClaimEvent?
    ensures NacksOf(log + [NackEvent(0, 1)] + [NackEvent(1, 1)]) == [1, 1]
  {
    Appended([], log[0]);
    assert [] + [log[0]] == [log[0]];
    Appended([log[0]], log[1]);
    assert [log[0]] + [log[1]] == log;
    Appended(log, NackEvent(0, 1));
    Appended(log + [NackEvent(0, 1)], NackEvent(1, 1));
  }

  // ---- An ack beside a dead letter ---------------------------------------

  /** A third node, and a first one that gives up after a single attempt. */
  predicate ThreeWorkers(p: Params) {
    TwoWorkers(p) && |p.nodes| >= 3 && p.nodes[0].maxAttempts <= 1
  }

  /** Node 0 dead-letters the message that node 1 acknowledges, and node 2 starts an attempt. */
  function AckAndDlq(p: Params): seq<Action> {
    [Act(0, JudgeNack), Act(1, PublishAck), Act(2, Poll), Act(2, Begin)]
  }

  lemma DlqAndAckLand(p: Params, s: State) returns (t: State)
    requires |s.nodes| == |p.nodes| >= 3 && p.nodes[0].maxAttempts <= 1
    requires s.nodes[0].pc == Nacked(0, 1) && s.nodes[1].pc.Handling?
    ensures Exec(p, s, [Act(0, JudgeNack), Act(1, PublishAck)]) == Some(t)
    ensures t.log == s.log + [DlqEvent(0, 1)] + [AckEvent(1)] && t.clock == s.clock
    ensures |t.nodes| == |s.nodes| && t.nodes[2] == s.nodes[2]
  {
    var s1 := Apply(p, s, Act(0, JudgeNack));
    ExecSnoc(p, s, [], Act(0, JudgeNack));
    assert [] + [Act(0, JudgeNack)] == [Act(0, JudgeNack)];
    t := Apply(p, s1, Act(1, PublishAck));
    ExecSnoc(p, s, [Act(0, JudgeNack)], Act(1, PublishAck));
    assert [Act(0, JudgeNack)] + [Act(1, PublishAck)] == [Act(0, JudgeNack), Act(1, PublishAck)];
  }

  lemma AckAndDlqLand(p: Params, s: State) returns (t: State)
    requires |s.nodes| == |p.nodes| >= 3 && p.nodes[0].maxAttempts <= 1
    requires s.nodes[0].pc == Nacked(0, 1) && s.nodes[1].pc.Handling?
    requires s.nodes[2].pc.Idle? && Claimable(s.nodes[2].row, Seconds(s.clock))
    ensures Exec(p, s, AckAndDlq(p)) == Some(t)
    ensures t.log == s.log + [DlqEvent(0, 1)] + [AckEvent(1)] && |t.nodes| == |p.nodes|
    ensures t.nodes[2] == s.nodes[2].(pc := Checking(s.nodes[2].row, Seconds(s.clock)))
  {
    var mid := DlqAndAckLand(p, s);
    t := AttemptStarts(p, mid, 2);
    ExecConcat(p, s, [Act(0, JudgeNack), Act(1, PublishAck)], [Act(2, Poll), Act(2, Begin)]);
    assert [Act(0, JudgeNack), Act(1, PublishAck)] + [Act(2, Poll), Act(2, Begin)] == AckAndDlq(p);
  }

  /** A check that finds both an ack and a dlq event returns at the ack: the row ends acked with a
      counter below the dlq event's attempt, so observing that event healed nothing. */
  lemma AckHidesDlq(p: Params) returns (s: State)
    requires ThreeWorkers(p)
    ensures Exec(p, Initial(p), BothWin(p) + NackActs(0) + AckAndDlq(p)) == Some(s)
    ensures HasAck(s.log) && DlqEvent(0, 1) in s.log && Enabled(p, s, Act(2, CheckTerminal))
    ensures var row := EffectOf(p, s, 2, CheckTerminal).node.row; row.status == Acked && row.attempts == 0
    ensures !WouldHeal(s, 2, 1)
  {
    var won := BothCanWin(p);
    InitialInv(p);
    InvAlways(p, Initial(p), BothWin(p), won);
    assert NodeInv(p, 0, won.clock, won.log, won.nodes[0]);
    NackLands(p, won, 0);
    ExecConcat(p, Initial(p), BothWin(p), NackActs(0));
    assert Seconds(p.start) <= Seconds(won.clock);
    s := AckAndDlqLand(p, NackedState(won, 0));
    ExecConcat(p, Initial(p), BothWin(p) + NackActs(0), AckAndDlq(p));
    assert AckEvent(1) in s.log;
  }
}
