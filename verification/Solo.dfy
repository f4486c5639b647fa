/** Runs of `try_claim` that no other step interrupts: crates/nostr-q/src/lib.rs:228-407. */
module SoloRuns {
  import opened Base
  import opened Claims
  import opened Rows
  import opened ClaimProtocol
  import opened Invariants

  lemma {:induction false} ExecConcat(p: Params, s: State, xs: seq<Action>, ys: seq<Action>)
    requires Exec(p, s, xs).Some?
    ensures Exec(p, s, xs + ys) == Exec(p, Exec(p, s, xs).value, ys)
  {
    if ys == [] {
      assert xs + ys == xs;
    } else {
      var init := ys[..|ys| - 1];
      ExecConcat(p, s, xs, init);
      assert (xs + ys)[..|xs + ys| - 1] == xs + init;
    }
  }

  function Survey(i: nat): seq<Action> {
    [Act(i, Poll), Act(i, Begin), Act(i, CheckTerminal), Act(i, SurveyNacks), Act(i, SurveyClaims)]
  }

  function Settlement(p: Params, i: nat, id: nat, createdAt: int): seq<Action> {
    [Act(i, PublishClaim(id, createdAt)), Tick(p.settle), Act(i, Requery), Act(i, Decide)]
  }

  function WithPc(s: State, i: nat, pc: Pc): State
    requires i < |s.nodes|
  {
    s.(nodes := s.nodes[i := s.nodes[i].(pc := pc)])
  }

  /** A claimable message on an idle node, with nothing terminal on the log for this row. */
  predicate ReadyToClaim(p: Params, s: State, i: nat) {
    && i < |s.nodes| == |p.nodes|
    && s.nodes[i].pc.Idle?
    && Claimable(s.nodes[i].row, Seconds(s.clock))
    && !HasAck(s.log)
    && (MaxDlq(s.log).Some? ==> MaxDlq(s.log).value <= s.nodes[i].row.floor)
  }

  /** The claim that would win if a node looked at the relay now. */
  function WinnerNow(s: State): Option<ClaimInfo> {
    ClaimWinner(ClaimsOf(s.log), MaxNack(s.log), Seconds(s.clock))
  }

  /** One more step of node `i` on top of a run that so far only changed node `i`. */
  lemma OneMore(p: Params, s: State, acts: seq<Action>, mid: State, i: nat, m: Move, e: Effect)
    requires i < |s.nodes| == |mid.nodes| && mid.nodes == s.nodes[i := mid.nodes[i]]
    requires Exec(p, s, acts) == Some(mid) && Enabled(p, mid, Act(i, m)) && EffectOf(p, mid, i, m) == e
    ensures Exec(p, s, acts + [Act(i, m)])
         == Some(State(mid.clock, Extend(mid.log, e.published), s.nodes[i := e.node],
                       if e.won.Some? then mid.wins + {e.won.value} else mid.wins))
  {
    ExecSnoc(p, s, acts, Act(i, m));
    assert mid.nodes[i := e.node] == s.nodes[i := e.node];
  }

  lemma AttemptStarts(p: Params, s: State, i: nat) returns (t: State)
    requires i < |s.nodes| == |p.nodes| && s.nodes[i].pc.Idle? && Claimable(s.nodes[i].row, Seconds(s.clock))
    ensures Exec(p, s, [Act(i, Poll), Act(i, Begin)]) == Some(t)
    ensures t == WithPc(s, i, Checking(s.nodes[i].row, Seconds(s.clock)))
  {
    var n := s.nodes[i];
    OneMore(p, s, [], s, i, Poll, Quiet(n.(pc := Polled(n.row))));
    OneMore(p, s, [] + [Act(i, Poll)], WithPc(s, i, Polled(n.row)), i, Begin,
            Quiet(n.(pc := Checking(n.row, Seconds(s.clock)))));
    assert [] + [Act(i, Poll)] + [Act(i, Begin)] == [Act(i, Poll), Act(i, Begin)];
    t := WithPc(s, i, Checking(n.row, Seconds(s.clock)));
  }

  /** The first four steps of an uninterrupted attempt change nothing but the task's own progress. */
  lemma UpToClaimSurvey(p: Params, s: State, i: nat)
    requires ReadyToClaim(p, s, i)
    ensures var pc := SurveyingClaims(s.nodes[i].row, Seconds(s.clock), MaxNack(s.log));
            Exec(p, s, Survey(i)[..4]) == Some(WithPc(s, i, pc))
  {
    var n, now := s.nodes[i], Seconds(s.clock);
    assert s.nodes[i := n] == s.nodes;
    OneMore(p, s, [], s, i, Poll, Quiet(n.(pc := Polled(n.row))));
    var acts := [] + [Act(i, Poll)];
    OneMore(p, s, acts, WithPc(s, i, Polled(n.row)), i, Begin, Quiet(n.(pc := Checking(n.row, now))));
    acts := acts + [Act(i, Begin)];
    OneMore(p, s, acts, WithPc(s, i, Checking(n.row, now)), i, CheckTerminal,
            Quiet(n.(pc := SurveyingNacks(n.row, now))));
    acts := acts + [Act(i, CheckTerminal)];
    OneMore(p, s, acts, WithPc(s, i, SurveyingNacks(n.row, now)), i, SurveyNacks,
            Quiet(n.(pc := SurveyingClaims(n.row, now, MaxNack(s.log)))));
    assert acts + [Act(i, SurveyNacks)] == Survey(i)[..4];
  }

  function ContendingState(s: State, i: nat): State
    requires i < |s.nodes|
  {
    WithPc(s, i, Contending(s.nodes[i].row, Seconds(s.clock), MaxNack(s.log), ClaimsOf(s.log), s.clock))
  }

  function RecognizedState(s: State, i: nat): State
    requires i < |s.nodes| && WinnerNow(s).Some?
  {
    var w := WinnerNow(s).value;
    s.(nodes := s.nodes[i := Won(s.nodes[i], w, MaxNack(s.log)).node], wins := s.wins + {w})
  }

  /** The claim query either finds no live claim and lets the node contend, or recognizes a live
      claim of its own without publishing another. */
  lemma UpToDecision(p: Params, s: State, i: nat)
    requires ReadyToClaim(p, s, i)
    ensures WinnerNow(s).None? ==> Exec(p, s, Survey(i)) == Some(ContendingState(s, i))
    ensures WinnerNow(s).Some? && WinnerNow(s).value.claimer == i
            ==> Exec(p, s, Survey(i)) == Some(RecognizedState(s, i))
  {
    UpToClaimSurvey(p, s, i);
    assert Survey(i) == Survey(i)[..4] + [Act(i, SurveyClaims)];
    var mid := WithPc(s, i, SurveyingClaims(s.nodes[i].row, Seconds(s.clock), MaxNack(s.log)));
    OneMore(p, s, Survey(i)[..4], mid, i, SurveyClaims, ClaimSurvey(i, s.clock, mid.nodes[i], s.log));
  }

  /** A contender whose claim wins once settled. */
  ghost predicate WouldWin(p: Params, s: State, i: nat, id: nat, createdAt: int) {
    && i < |s.nodes| == |p.nodes| && s.nodes[i].pc.Contending?
    && s.clock <= s.nodes[i].pc.surveyedAt + p.latency
    && (forall c :: c in ClaimsOf(s.log) ==> c.id != id)
    && MaxNack(s.log) <= s.nodes[i].pc.observed
    && var c := OwnClaim(p.nodes[i], i, s.nodes[i].pc, id, createdAt);
       ClaimWinner(ClaimsOf(s.log) + [c], s.nodes[i].pc.observed, s.nodes[i].pc.now) == Some(c)
  }

  function SettledState(p: Params, s: State, i: nat, id: nat, createdAt: int): State
    requires i < |s.nodes| == |p.nodes| && s.nodes[i].pc.Contending?
  {
    var c := OwnClaim(p.nodes[i], i, s.nodes[i].pc, id, createdAt);
    State(s.clock + p.settle, s.log + [ClaimEvent(c)],
          s.nodes[i := Won(s.nodes[i], c, s.nodes[i].pc.observed).node], s.wins + {c})
  }

  function Published(p: Params, s: State, i: nat, id: nat, createdAt: int): State
    requires i < |s.nodes| == |p.nodes| && s.nodes[i].pc.Contending?
  {
    var pc := s.nodes[i].pc;
    var c := OwnClaim(p.nodes[i], i, pc, id, createdAt);
    var landed := s.(log := s.log + [ClaimEvent(c)], clock := s.clock + p.settle);
    WithPc(landed, i, Settling(pc.rec, pc.now, pc.observed, pc.surveyed, c, s.clock))
  }

  lemma ContenderPublishes(p: Params, s: State, i: nat, id: nat, createdAt: int)
    requires WouldWin(p, s, i, id, createdAt)
    ensures Exec(p, s, Settlement(p, i, id, createdAt)[..2]) == Some(Published(p, s, i, id, createdAt))
  {
    var n := s.nodes[i];
    var c := OwnClaim(p.nodes[i], i, n.pc, id, createdAt);
    var n1 := n.(pc := Settling(n.pc.rec, n.pc.now, n.pc.observed, n.pc.surveyed, c, s.clock));
    assert s.nodes[i := n] == s.nodes;
    OneMore(p, s, [], s, i, PublishClaim(id, createdAt), Effect(n1, Some(ClaimEvent(c)), None));
    var acts := [] + [Act(i, PublishClaim(id, createdAt))];
    ExecSnoc(p, s, acts, Tick(p.settle));
    assert acts + [Tick(p.settle)] == Settlement(p, i, id, createdAt)[..2];
  }

  /** What an uninterrupted settle window does to a contender. */
  lemma ContenderSettles(p: Params, s: State, i: nat, id: nat, createdAt: int)
    requires WouldWin(p, s, i, id, createdAt)
    ensures Exec(p, s, Settlement(p, i, id, createdAt)) == Some(SettledState(p, s, i, id, createdAt))
  {
    ContenderPublishes(p, s, i, id, createdAt);
    var n := s.nodes[i];
    var s2 := Published(p, s, i, id, createdAt);
    var pc := s2.nodes[i].pc;
    Appended(s.log, ClaimEvent(pc.own));
    var acts := Settlement(p, i, id, createdAt)[..2];
    var n2 := n.(pc := Deciding(pc.rec, pc.now, pc.observed, pc.surveyed, pc.own, pc.publishedAt, ClaimsOf(s2.log)));
    OneMore(p, s, acts, s2, i, Requery, Quiet(n2));
    acts := acts + [Act(i, Requery)];
    var s3 := s2.(nodes := s.nodes[i := n2]);
    OneMore(p, s, acts, s3, i, Decide, Decision(p.nodes[i], i, n2, s2.log));
    assert acts + [Act(i, Decide)] == Settlement(p, i, id, createdAt);
  }

  /** Node `i` has just won with claim `w`, live and of the current generation, and its row records
      exactly that claim's lease and the relay's generation. */
  ghost predicate JustWon(before: State, end: State, i: nat, w: ClaimInfo) {
    && i < |end.nodes| && end.nodes[i].pc.Handling? && end.nodes[i].row.status == Claimed
    && w in end.wins && w.claimer == i && OnLog(end.log, w)
    && end.nodes[i].row.lease == Some(w.leaseExp) && w.leaseExp > Seconds(before.clock)
    && w.attempt == end.nodes[i].row.attempts == MaxNack(before.log) == MaxNack(end.log)
  }

  lemma SoloRecognizes(p: Params, s: State, i: nat)
    requires Inv(p, s) && ReadyToClaim(p, s, i) && WinnerNow(s).Some? && WinnerNow(s).value.claimer == i
    ensures Exec(p, s, Survey(i)).Some? && JustWon(s, Exec(p, s, Survey(i)).value, i, WinnerNow(s).value)
  {
    assert NodeInv(p, i, s.clock, s.log, s.nodes[i]);
    WinnerIsLeastLive(ClaimsOf(s.log), MaxNack(s.log), Seconds(s.clock));
    ClaimsAreMembers(s.log, WinnerNow(s).value);
    UpToDecision(p, s, i);
  }

  lemma OnlyLiveWins(claims: seq<ClaimInfo>, c: ClaimInfo, minAttempt: nat, now: int)
    requires ClaimWinner(claims, minAttempt, now).None? && Live(c, minAttempt, now)
    ensures ClaimWinner(claims + [c], minAttempt, now) == Some(c)
  {
    assert (claims + [c])[..|claims|] == claims;
  }

  /** The whole effect of an uninterrupted attempt that contends. */
  lemma SoloContends(p: Params, s: State, i: nat, id: nat, createdAt: int) returns (c: ClaimInfo, t: State)
    requires Inv(p, s) && ReadyToClaim(p, s, i) && WinnerNow(s).None? && p.nodes[i].lease >= 1
    requires forall c :: c in ClaimsOf(s.log) ==> c.id != id
    ensures Exec(p, s, Survey(i) + Settlement(p, i, id, createdAt)) == Some(t) && JustWon(s, t, i, c)
    ensures c == ClaimInfo(i, id, createdAt, Seconds(s.clock) + p.nodes[i].lease, MaxNack(s.log))
    ensures t.clock == s.clock + p.settle && t.log == s.log + [ClaimEvent(c)]
    ensures t.nodes == s.nodes[i := t.nodes[i]] && t.nodes[i].pc == Handling(MaxNack(s.log))
  {
    assert NodeInv(p, i, s.clock, s.log, s.nodes[i]);
    WinnerIsLeastLive(ClaimsOf(s.log), MaxNack(s.log), Seconds(s.clock));
    UpToDecision(p, s, i);
    var s1 := ContendingState(s, i);
    c := OwnClaim(p.nodes[i], i, s1.nodes[i].pc, id, createdAt);
    t := SettledState(p, s1, i, id, createdAt);
    OnlyLiveWins(ClaimsOf(s.log), c, MaxNack(s.log), Seconds(s.clock));
    ContenderSettles(p, s1, i, id, createdAt);
    ExecConcat(p, s, Survey(i), Settlement(p, i, id, createdAt));
    Appended(s.log, ClaimEvent(c));
  }

  /** Solo progress: on a reachable state with nothing terminal on the log, an unexpired claimable
      row, a lease of at least a second and no live foreign winner, an uninterrupted `try_claim`
      wins, however far the node's own counter lags behind the relay: without publishing when it
      already holds the live claim, and by publishing one claim otherwise. */
  lemma SoloProgress(p: Params, s: State, i: nat, id: nat, createdAt: int)
    requires Reachable(p, s) && ReadyToClaim(p, s, i) && p.nodes[i].lease >= 1
    requires WinnerNow(s).None? || WinnerNow(s).value.claimer == i
    requires forall c :: c in ClaimsOf(s.log) ==> c.id != id
    ensures var acts := if WinnerNow(s).Some? then Survey(i) else Survey(i) + Settlement(p, i, id, createdAt);
            var end := Exec(p, s, acts);
            end.Some? && exists w :: JustWon(s, end.value, i, w)
  {
    ReachableInv(p, s);
    if WinnerNow(s).Some? {
      SoloRecognizes(p, s, i);
    } else {
      var c, t := SoloContends(p, s, i, id, createdAt);
    }
  }
}
