/** The settle window is exactly as long as exclusion needs it to be. */
module ExclusionLimit {
  import opened Base
  import opened Claims
  import opened Rows
  import opened ClaimProtocol
  import opened SoloRuns
  import opened Exclusion

  /** Two nodes can start claiming at once, with leases that outlast two settle windows. */
  predicate TwoContenders(p: Params) {
    && |p.nodes| >= 2
    && Claimable(FreshRow(p), Seconds(p.start))
    && Seconds(p.start + 2 * p.settle) < Seconds(p.start) + p.nodes[0].lease
    && Seconds(p.start + 2 * p.settle) < Seconds(p.start) + p.nodes[1].lease
  }

  /** A late claim with an earlier `created_at`: node 1 surveys before node 0 publishes, node 0
      settles and wins, and only then does node 1's claim land. */
  function LateClaim(p: Params): seq<Action> {
    Survey(0) + Survey(1) + Settlement(p, 0, 1, 1) + Settlement(p, 1, 0, 0)
  }

  function BothSurveyed(p: Params): State
    requires TwoContenders(p)
  {
    ContendingState(ContendingState(Initial(p), 0), 1)
  }

  function FirstWon(p: Params): State
    requires TwoContenders(p)
  {
    SettledState(p, BothSurveyed(p), 0, 1, 1)
  }

  lemma BothSurvey(p: Params)
    requires TwoContenders(p)
    ensures Exec(p, Initial(p), Survey(0) + Survey(1)) == Some(BothSurveyed(p))
  {
    UpToDecision(p, Initial(p), 0);
    UpToDecision(p, ContendingState(Initial(p), 0), 1);
    ExecConcat(p, Initial(p), Survey(0), Survey(1));
  }

  function FirstClaim(p: Params): ClaimInfo
    requires TwoContenders(p)
  {
    OwnClaim(p.nodes[0], 0, BothSurveyed(p).nodes[0].pc, 1, 1)
  }

  lemma FirstWonLog(p: Params)
    requires TwoContenders(p)
    ensures ClaimsOf(FirstWon(p).log) == [FirstClaim(p)] && MaxNack(FirstWon(p).log) == 0
  {
    Appended([], ClaimEvent(FirstClaim(p)));
    assert FirstWon(p).log == [] + [ClaimEvent(FirstClaim(p))];
  }

  lemma FirstWins(p: Params)
    requires TwoContenders(p)
    ensures Exec(p, Initial(p), Survey(0) + Survey(1) + Settlement(p, 0, 1, 1)) == Some(FirstWon(p))
  {
    BothSurvey(p);
    OnlyLiveWins([], FirstClaim(p), 0, Seconds(p.start));
    assert ClaimsOf(BothSurveyed(p).log) == [];
    ContenderSettles(p, BothSurveyed(p), 0, 1, 1);
    ExecConcat(p, Initial(p), Survey(0) + Survey(1), Settlement(p, 0, 1, 1));
  }

  function RivalClaim(p: Params): ClaimInfo
    requires TwoContenders(p)
  {
    OwnClaim(p.nodes[1], 1, FirstWon(p).nodes[1].pc, 0, 0)
  }

  lemma LateClaimWins(p: Params)
    requires TwoContenders(p) && p.latency >= p.settle
    ensures Exec(p, Initial(p), LateClaim(p)) == Some(SettledState(p, FirstWon(p), 1, 0, 0))
  {
    FirstWins(p);
    FirstWonLog(p);
    LeastLiveIsWinner([FirstClaim(p)] + [RivalClaim(p)], 0, Seconds(p.start), RivalClaim(p));
    ContenderSettles(p, FirstWon(p), 1, 0, 0);
    ExecConcat(p, Initial(p), Survey(0) + Survey(1) + Settlement(p, 0, 1, 1), Settlement(p, 1, 0, 0));
  }

  lemma LateClaimWinsToo(p: Params)
    requires TwoContenders(p) && p.latency >= p.settle
    ensures var t := Exec(p, Initial(p), LateClaim(p));
            t.Some? && !Exclusive(t.value)
  {
    LateClaimWins(p);
    FirstWonLog(p);
    var t, c, late := SettledState(p, FirstWon(p), 1, 0, 0), FirstClaim(p), RivalClaim(p);
    Appended(FirstWon(p).log, ClaimEvent(late));
    assert c in t.wins && late in t.wins && Current(t, c) && Current(t, late);
  }

  /** Exclusion holds in every reachable state if and only if every claim lands strictly before the
      settle window that its rivals wait. */
  lemma ExclusionExactly(p: Params)
    requires TwoContenders(p)
    ensures (forall s :: Reachable(p, s) ==> Exclusive(s)) <==> p.latency < p.settle
  {
    if p.latency < p.settle {
      forall s | Reachable(p, s) ensures Exclusive(s) {
        LeaseExclusion(p, s);
      }
    } else {
      LateClaimWinsToo(p);
      var t := Exec(p, Initial(p), LateClaim(p)).value;
      assert Reachable(p, t);
    }
  }
}
