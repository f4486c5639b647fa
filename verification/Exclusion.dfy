/** Mutual exclusion of leases: crates/nostr-q/src/lib.rs, phases 2 and 3 of `try_claim`. */
module Exclusion {
  import opened Base
  import opened Claims
  import opened Rows
  import opened ClaimProtocol
  import opened Invariants

  /** The claim's lease is unexpired and no nack on the log has superseded it. */
  predicate Current(s: State, c: ClaimInfo) {
    Live(c, MaxNack(s.log), Seconds(s.clock))
  }

  /** No two nodes hold winning claims that are both current. */
  ghost predicate Exclusive(s: State) {
    forall a, b :: a in s.wins && b in s.wins && Current(s, a) && Current(s, b) ==> a.claimer == b.claimer
  }

  /** `c` was published by an attempt that has not decided yet. */
  predicate Undecided(s: State, c: ClaimInfo) {
    c.claimer < |s.nodes| && HasOwn(s.nodes[c.claimer].pc) && s.nodes[c.claimer].pc.own == c
  }

  ghost predicate WinsDecided(s: State) {
    forall w :: w in s.wins ==> OnLog(s.log, w) && !Undecided(s, w)
  }

  /** A winning claim precedes every current rival on the log. */
  ghost predicate WinsPrecede(s: State) {
    forall w, b :: w in s.wins && OnLog(s.log, b) && b.claimer != w.claimer && Current(s, w) && Current(s, b)
                   ==> KeyLess(w, b)
  }

  /** A claim that node `j` missed in its survey is either still settling, and then was published
      after that survey, or the survey is at least a settle window old. */
  ghost predicate MissedIsRecent(p: Params, s: State, j: nat, c: ClaimInfo)
    requires j < |s.nodes| && s.nodes[j].pc.Contending?
  {
    || (Undecided(s, c) && s.nodes[j].pc.surveyedAt <= s.nodes[c.claimer].pc.publishedAt)
    || s.nodes[j].pc.surveyedAt + p.settle <= s.clock
  }

  ghost predicate ContendersCurrent(p: Params, s: State) {
    forall j, c :: 0 <= j < |s.nodes| && s.nodes[j].pc.Contending? && OnLog(s.log, c) && c !in s.nodes[j].pc.surveyed
                   ==> MissedIsRecent(p, s, j, c)
  }

  /** Node `i` decides on claims it re-read before rival `b` landed. */
  ghost predicate LateRival(s: State, i: nat, b: ClaimInfo) {
    && i < |s.nodes| && s.nodes[i].pc.Deciding?
    && OnLog(s.log, b) && b !in s.nodes[i].pc.claims && b.claimer != i
  }

  /** Rivals that land after a node re-read the claims cannot be current together with its claim. */
  ghost predicate LateRivalDead(s: State, i: nat, b: ClaimInfo) {
    LateRival(s, i, b) ==> !(Current(s, s.nodes[i].pc.own) && Current(s, b))
  }

  ghost predicate LateRivalsDead(s: State) {
    forall i, b :: 0 <= i < |s.nodes| ==> LateRivalDead(s, i, b)
  }

  ghost predicate ExclusionInv(p: Params, s: State) {
    Inv(p, s) && WinsDecided(s) && WinsPrecede(s) && ContendersCurrent(p, s) && LateRivalsDead(s)
  }

  // ---- Preservation ------------------------------------------------------

  /** A claim dead for a reader of the past stays dead. */
  lemma DeadStaysDead(s: State, c: ClaimInfo, minAttempt: nat, now: int)
    requires minAttempt <= MaxNack(s.log) && now <= Seconds(s.clock) && !Live(c, minAttempt, now)
    ensures !Current(s, c)
  {
  }

  lemma CurrentOnlyFades(p: Params, s: State, a: Action, c: ClaimInfo)
    requires Enabled(p, s, a) && Current(Apply(p, s, a), c)
    ensures Current(s, c)
  {
    if a.Act? && EffectOf(p, s, a.i, a.move).published.Some? {
      Appended(s.log, EffectOf(p, s, a.i, a.move).published.value);
    }
  }

  /** A newly published claim is never current together with a decided or deciding claim it missed. */
  lemma PublisherMissesNothingCurrent(p: Params, s: State, j: nat, c: ClaimInfo)
    requires p.latency < p.settle
    requires ExclusionInv(p, s) && j < |s.nodes| && s.nodes[j].pc.Contending? && OnLog(s.log, c)
    requires s.clock <= s.nodes[j].pc.surveyedAt + p.latency
    requires !Undecided(s, c) || s.nodes[c.claimer].pc.Deciding?
    ensures !Current(s, c)
  {
    assert NodeInv(p, j, s.clock, s.log, s.nodes[j]);
    if Undecided(s, c) {
      assert NodeInv(p, c.claimer, s.clock, s.log, s.nodes[c.claimer]);
    }
    if c in s.nodes[j].pc.surveyed {
      DeadStaysDead(s, c, s.nodes[j].pc.observed, s.nodes[j].pc.now);
    } else {
      assert false;
    }
  }

  lemma OnLogAfter(p: Params, s: State, i: nat, m: Move, c: ClaimInfo)
    requires Inv(p, s) && Enabled(p, s, Act(i, m))
    ensures OnLog(s.log, c) ==> OnLog(Apply(p, s, Act(i, m)).log, c)
    ensures OnLog(Apply(p, s, Act(i, m)).log, c) && !OnLog(s.log, c)
            ==> m.PublishClaim? && c == OwnClaim(p.nodes[i], i, s.nodes[i].pc, m.id, m.createdAt)
  {
  }

  lemma FreshWinDecided(p: Params, s: State, i: nat, m: Move)
    requires Inv(p, s) && Enabled(p, s, Act(i, m)) && EffectOf(p, s, i, m).won.Some?
    ensures var t, w := Apply(p, s, Act(i, m)), EffectOf(p, s, i, m).won.value;
            OnLog(t.log, w) && !Undecided(t, w)
  {
    assert NodeInv(p, i, s.clock, s.log, s.nodes[i]);
    PublishedBy(p, s, i, m);
    WinIsOfGeneration(p, i, s.clock, s.log, s.nodes[i], m);
  }

  lemma OldWinDecided(p: Params, s: State, i: nat, m: Move, w: ClaimInfo)
    requires Inv(p, s) && Enabled(p, s, Act(i, m)) && OnLog(s.log, w) && !Undecided(s, w)
    ensures var t := Apply(p, s, Act(i, m)); OnLog(t.log, w) && !Undecided(t, w)
  {
    OnLogAfter(p, s, i, m, w);
    if m.PublishClaim? {
      ClaimsAreMembers(s.log, w);
    }
  }

  lemma WinsDecidedStep(p: Params, s: State, a: Action)
    requires ExclusionInv(p, s) && Enabled(p, s, a)
    ensures WinsDecided(Apply(p, s, a))
  {
    var t := Apply(p, s, a);
    if a.Act? {
      forall w | w in t.wins ensures OnLog(t.log, w) && !Undecided(t, w) {
        if w in s.wins {
          OldWinDecided(p, s, a.i, a.move, w);
        } else {
          FreshWinDecided(p, s, a.i, a.move);
        }
      }
    }
  }

  /** A fresh win precedes every rival that is current with it. */
  lemma FreshWinPrecedes(p: Params, s: State, i: nat, m: Move, b: ClaimInfo)
    requires ExclusionInv(p, s) && Enabled(p, s, Act(i, m)) && EffectOf(p, s, i, m).won.Some?
    requires OnLog(s.log, b) && b.claimer != i
    requires Current(s, EffectOf(p, s, i, m).won.value) && Current(s, b)
    ensures EffectOf(p, s, i, m).won.value.claimer == i
    ensures KeyLess(EffectOf(p, s, i, m).won.value, b)
  {
    var n, w := s.nodes[i], EffectOf(p, s, i, m).won.value;
    assert NodeInv(p, i, s.clock, s.log, n);
    ClaimsAreMembers(s.log, b);
    ClaimsAreMembers(s.log, w);
    if m.SurveyClaims? {
      WinnerIsLeastLive(ClaimsOf(s.log), n.pc.observed, n.pc.now);
    } else {
      assert LateRivalDead(s, i, b);
      var minAttempt := Max(n.pc.observed, MaxNack(s.log));
      WinnerAfterSettlingIsOwn(p, i, s.clock, s.log, n, minAttempt);
      WinnerIsLeastLive(n.pc.claims, minAttempt, n.pc.now);
    }
  }

  lemma WinsPrecedeStep(p: Params, s: State, a: Action)
    requires p.latency < p.settle
    requires ExclusionInv(p, s) && Enabled(p, s, a)
    ensures WinsPrecede(Apply(p, s, a))
  {
    var t := Apply(p, s, a);
    forall w, b | w in t.wins && OnLog(t.log, b) && b.claimer != w.claimer && Current(t, w) && Current(t, b)
      ensures KeyLess(w, b)
    {
      CurrentOnlyFades(p, s, a, w);
      CurrentOnlyFades(p, s, a, b);
      if a.Act? {
        OnLogAfter(p, s, a.i, a.move, b);
        if w !in s.wins {
          assert NodeInv(p, a.i, s.clock, s.log, s.nodes[a.i]);
          FreshWinPrecedes(p, s, a.i, a.move, b);
        } else if !OnLog(s.log, b) {
          PublisherMissesNothingCurrent(p, s, a.i, w);
          assert false;
        }
      }
    }
  }

  /** A node is contending or deciding only as it was, or because it just surveyed or re-read. */
  lemma OnlySurveysAndRereads(p: Params, s: State, a: Action, i: nat)
    requires Enabled(p, s, a) && i < |s.nodes|
    ensures var was, pc := s.nodes[i].pc, Apply(p, s, a).nodes[i].pc;
            && (pc.Deciding? && a != Act(i, Requery) ==> pc == was)
            && (pc.Contending? && a != Act(i, SurveyClaims) ==> pc == was)
  {
  }

  /** A claim that lands now is recent, and one that was there was recent before. */
  lemma MissedStaysRecent(p: Params, s: State, i: nat, m: Move, j: nat, c: ClaimInfo)
    requires ExclusionInv(p, s) && Enabled(p, s, Act(i, m)) && j < |s.nodes| && s.nodes[j].pc.Contending?
    requires Apply(p, s, Act(i, m)).nodes[j].pc == s.nodes[j].pc
    requires OnLog(Apply(p, s, Act(i, m)).log, c) && c !in s.nodes[j].pc.surveyed
    ensures MissedIsRecent(p, Apply(p, s, Act(i, m)), j, c)
  {
    assert NodeInv(p, i, s.clock, s.log, s.nodes[i]);
    assert NodeInv(p, j, s.clock, s.log, s.nodes[j]);
    OnLogAfter(p, s, i, m, c);
    if OnLog(s.log, c) {
      assert MissedIsRecent(p, s, j, c);
    }
  }

  lemma ContendersCurrentStep(p: Params, s: State, a: Action)
    requires ExclusionInv(p, s) && Enabled(p, s, a)
    ensures ContendersCurrent(p, Apply(p, s, a))
  {
    var t := Apply(p, s, a);
    forall j, c | 0 <= j < |t.nodes| && t.nodes[j].pc.Contending? && OnLog(t.log, c) && c !in t.nodes[j].pc.surveyed
      ensures MissedIsRecent(p, t, j, c)
    {
      if a.Tick? {
        assert MissedIsRecent(p, s, j, c);
      } else if a == Act(j, SurveyClaims) {
        ClaimsAreMembers(s.log, c);
        assert false;
      } else {
        OnlySurveysAndRereads(p, s, a, j);
        MissedStaysRecent(p, s, a.i, a.move, j, c);
      }
    }
  }

  /** When a rival's claim lands, the claim of a node that is deciding is no longer current. */
  lemma LateRivalFindsDead(p: Params, s: State, a: Action, i: nat, b: ClaimInfo)
    requires p.latency < p.settle
    requires ExclusionInv(p, s) && Enabled(p, s, a) && i < |s.nodes| && s.nodes[i].pc.Deciding? && b.claimer != i
    requires OnLog(Apply(p, s, a).log, b) && !OnLog(s.log, b)
    ensures !Current(s, s.nodes[i].pc.own)
  {
    OnLogAfter(p, s, a.i, a.move, b);
    assert NodeInv(p, i, s.clock, s.log, s.nodes[i]);
    PublisherMissesNothingCurrent(p, s, a.i, s.nodes[i].pc.own);
  }

  /** Right after re-reading the claims a decider has missed none. */
  lemma FreshDeciderMissesNone(p: Params, s: State, i: nat, b: ClaimInfo)
    requires Enabled(p, s, Act(i, Requery)) && OnLog(s.log, b)
    ensures b in Apply(p, s, Act(i, Requery)).nodes[i].pc.claims
  {
    ClaimsAreMembers(s.log, b);
  }

  lemma LateRivalDeadStep(p: Params, s: State, a: Action, i: nat, b: ClaimInfo)
    requires p.latency < p.settle
    requires ExclusionInv(p, s) && Enabled(p, s, a) && i < |s.nodes|
    ensures LateRivalDead(Apply(p, s, a), i, b)
  {
    var t := Apply(p, s, a);
    OnlySurveysAndRereads(p, s, a, i);
    if LateRival(t, i, b) {
      if a == Act(i, Requery) {
        FreshDeciderMissesNone(p, s, i, b);
      } else if !OnLog(s.log, b) {
        LateRivalFindsDead(p, s, a, i, b);
      } else {
        assert LateRivalDead(s, i, b);
      }
      if Current(t, t.nodes[i].pc.own) && Current(t, b) {
        CurrentOnlyFades(p, s, a, t.nodes[i].pc.own);
        CurrentOnlyFades(p, s, a, b);
      }
    }
  }

  lemma LateRivalsDeadStep(p: Params, s: State, a: Action)
    requires p.latency < p.settle
    requires ExclusionInv(p, s) && Enabled(p, s, a)
    ensures LateRivalsDead(Apply(p, s, a))
  {
    forall i, b | 0 <= i < |s.nodes| ensures LateRivalDead(Apply(p, s, a), i, b) {
      LateRivalDeadStep(p, s, a, i, b);
    }
  }

  /** A claimed row holds the lease of one of its node's winning claims. */
  ghost predicate ClaimedRowsWon(s: State) {
    forall i :: 0 <= i < |s.nodes| && s.nodes[i].row.status == Claimed
                ==> exists w :: w in s.wins && Backs(i, s.log, s.nodes[i].row, w)
  }

  lemma FreshWinBacks(p: Params, s: State, i: nat, m: Move)
    requires Inv(p, s) && Enabled(p, s, Act(i, m)) && EffectOf(p, s, i, m).won.Some?
    ensures var t := Apply(p, s, Act(i, m)); Backs(i, t.log, t.nodes[i].row, EffectOf(p, s, i, m).won.value)
  {
    assert NodeInv(p, i, s.clock, s.log, s.nodes[i]);
    WinIsOfGeneration(p, i, s.clock, s.log, s.nodes[i], m);
  }

  lemma OldWinBacks(p: Params, s: State, a: Action, i: nat, w: ClaimInfo)
    requires Enabled(p, s, a) && i < |s.nodes| && Backs(i, s.log, s.nodes[i].row, w)
    requires a.Act? && a.i == i ==> EffectOf(p, s, i, a.move).won.None?
    ensures var t := Apply(p, s, a); t.nodes[i].row.status == Claimed ==> Backs(i, t.log, t.nodes[i].row, w)
  {
  }

  lemma NoWinNoClaim(p: Params, s: State, i: nat, m: Move)
    requires Enabled(p, s, Act(i, m)) && EffectOf(p, s, i, m).won.None?
    ensures EffectOf(p, s, i, m).node.row.status == Claimed ==> s.nodes[i].row.status == Claimed
  {
  }

  lemma ClaimedRowsWonStep(p: Params, s: State, a: Action)
    requires Inv(p, s) && ClaimedRowsWon(s) && Enabled(p, s, a)
    ensures ClaimedRowsWon(Apply(p, s, a))
  {
    var t := Apply(p, s, a);
    forall i | 0 <= i < |t.nodes| && t.nodes[i].row.status == Claimed
      ensures exists w :: w in t.wins && Backs(i, t.log, t.nodes[i].row, w)
    {
      if a.Act? && a.i == i && EffectOf(p, s, i, a.move).won.Some? {
        FreshWinBacks(p, s, i, a.move);
      } else {
        if a.Act? && a.i == i {
          NoWinNoClaim(p, s, i, a.move);
        }
        var w :| w in s.wins && Backs(i, s.log, s.nodes[i].row, w);
        OldWinBacks(p, s, a, i, w);
      }
    }
  }

  lemma {:induction false} ExclusionAlways(p: Params, acts: seq<Action>, t: State)
    requires p.latency < p.settle && Exec(p, Initial(p), acts) == Some(t)
    ensures ExclusionInv(p, t) && ClaimedRowsWon(t)
  {
    if acts == [] {
      InitialInv(p);
    } else {
      var a := acts[|acts| - 1];
      var s := Exec(p, Initial(p), acts[..|acts| - 1]).value;
      ExclusionAlways(p, acts[..|acts| - 1], s);
      InvStep(p, s, a);
      WinsDecidedStep(p, s, a);
      WinsPrecedeStep(p, s, a);
      ContendersCurrentStep(p, s, a);
      LateRivalsDeadStep(p, s, a);
      ClaimedRowsWonStep(p, s, a);
    }
  }

  /** Lease exclusion: when every claim lands strictly within the settle window of the survey behind
      it, no reachable state has two nodes with winning claims that are both unexpired and of the
      current nack generation, whatever `created_at` values the claims carry. */
  lemma LeaseExclusion(p: Params, s: State)
    requires p.latency < p.settle && Reachable(p, s)
    ensures Exclusive(s)
  {
    var acts :| Exec(p, Initial(p), acts) == Some(s);
    ExclusionAlways(p, acts, s);
  }

  /** The row records a lease that is unexpired. */
  predicate LeasedNow(s: State, row: Row) {
    row.status == Claimed && row.lease.Some? && row.lease.value > Seconds(s.clock)
  }

  /** Seen from the local rows: of two nodes that both record an unexpired lease, one records the
      lease of a claim that a nack has already superseded. */
  lemma ClaimedRowsExclude(p: Params, s: State, i: nat, j: nat)
    requires p.latency < p.settle && Reachable(p, s)
    requires i < |s.nodes| && j < |s.nodes| && i != j
    requires LeasedNow(s, s.nodes[i].row) && LeasedNow(s, s.nodes[j].row)
    ensures exists w :: w in s.wins && w.attempt < MaxNack(s.log)
              && (Backs(i, s.log, s.nodes[i].row, w) || Backs(j, s.log, s.nodes[j].row, w))
  {
    var acts :| Exec(p, Initial(p), acts) == Some(s);
    ExclusionAlways(p, acts, s);
    var a :| a in s.wins && Backs(i, s.log, s.nodes[i].row, a);
    var b :| b in s.wins && Backs(j, s.log, s.nodes[j].row, b);
    LeaseExclusion(p, s);
  }

  /** Who wins under contention: a contender that has waited out its settle window wins, and then with
      its own claim, if and only if its lease has any length, no nack has raised the generation since
      its survey, and its claim precedes every rival it re-read that is live at that generation. */
  lemma DeciderWinsExactly(p: Params, s: State, i: nat)
    requires Reachable(p, s) && Enabled(p, s, Act(i, Decide))
    ensures var pc, won := s.nodes[i].pc, EffectOf(p, s, i, Decide).won;
            && (won.Some? ==> won.value == pc.own)
            && (won.Some? <==> && p.nodes[i].lease >= 1 && MaxNack(s.log) <= pc.observed
                               && forall c :: c in pc.claims && c != pc.own && Live(c, pc.observed, pc.now)
                                              ==> KeyLess(pc.own, c))
  {
    ReachableInv(p, s);
    var n := s.nodes[i];
    assert NodeInv(p, i, s.clock, s.log, n);
    forall c | c in n.pc.claims ensures c in ClaimsOf(s.log) {
      ClaimsAreMembers(s.log, c);
    }
    var minAttempt := Max(n.pc.observed, MaxNack(s.log));
    WinnerAfterSettlingIsOwn(p, i, s.clock, s.log, n, minAttempt);
    LeastLiveIsWinner(n.pc.claims, minAttempt, n.pc.now, n.pc.own);
  }
}
