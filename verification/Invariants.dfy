/** What every step of the claim protocol keeps, on one node and across nodes. */
module Invariants {
  import opened Base
  import opened Claims
  import opened Rows
  import opened ClaimProtocol

  // ---- The invariant of one node -----------------------------------------

  predicate HasRec(pc: Pc) {
    pc.Polled? || pc.Checking? || pc.SurveyingNacks? || pc.SurveyingClaims? || HasSurvey(pc)
  }

  predicate HasNow(pc: Pc) {
    HasRec(pc) && !pc.Polled?
  }

  predicate HasObserved(pc: Pc) {
    pc.SurveyingClaims? || HasSurvey(pc)
  }

  predicate HasSurvey(pc: Pc) {
    pc.Contending? || HasOwn(pc)
  }

  predicate HasOwn(pc: Pc) {
    pc.Settling? || pc.Deciding?
  }

  predicate InNack(pc: Pc) {
    pc.Nacking? || pc.Nacked? || pc.DeadLettering?
  }

  /** The row against the task working on it. */
  ghost predicate Shape(p: Params, clock: nat, n: Node) {
    && n.row.floor <= n.row.attempts
    && n.row.expiresAt == p.expiresAt
    && (n.row.status == Dead <==> n.dlq.Some?)
    && (n.dlq.Some? ==> n.dlq.value == n.row.attempts)
    && (!n.pc.Idle? ==> n.row.status != Dead && n.row.status != Acked)
    && (HasRec(n.pc) ==>
          && n.pc.rec.attempts == n.row.attempts && n.pc.rec.floor == n.row.floor
          && n.pc.rec.expiresAt == p.expiresAt)
    && (HasNow(n.pc) ==> n.pc.now <= Seconds(clock) && (p.expiresAt.Some? ==> n.pc.now < p.expiresAt.value))
    && (InNack(n.pc) ==> n.pc.floor == n.row.floor < n.row.attempts == n.pc.attempts)
    && (n.pc.Settling? ==> n.pc.publishedAt <= clock)
    && (n.pc.Deciding? ==> n.pc.publishedAt + p.settle <= clock)
    && (n.pc.Contending? ==> n.pc.surveyedAt <= clock)
  }

  /** Generations: nothing a node holds runs ahead of the highest nack on the log, except its own
      counter between `incr_attempts` and the publication of that nack. */
  ghost predicate Generational(log: seq<Event>, n: Node) {
    && n.row.attempts <= MaxNack(log) + (if n.pc.Nacking? then 1 else 0)
    && (HasObserved(n.pc) ==> n.row.attempts <= n.pc.observed <= MaxNack(log))
    && (n.pc.Handling? ==> n.pc.gen <= n.row.attempts)
    && (n.pc.Nacking? ==> n.pc.gen < n.row.attempts)
  }

  ghost predicate OnLog(log: seq<Event>, c: ClaimInfo) {
    ClaimEvent(c) in log
  }

  /** What a contender knows: it has surveyed every claim of its own except the one it published,
      and nothing it surveyed can win again. */
  ghost predicate Surveyed(p: Params, i: nat, log: seq<Event>, n: Node) {
    && (HasSurvey(n.pc) ==>
          && (forall c :: c in n.pc.surveyed ==> OnLog(log, c) && !Live(c, n.pc.observed, n.pc.now))
          && (forall c :: OnLog(log, c) && c.claimer == i ==> c in n.pc.surveyed || (HasOwn(n.pc) && c == n.pc.own)))
    && (HasOwn(n.pc) ==>
          && OnLog(log, n.pc.own) && n.pc.own.claimer == i && n.pc.own !in n.pc.surveyed
          && i < |p.nodes| && n.pc.own.leaseExp == n.pc.now + p.nodes[i].lease
          && n.pc.own.attempt == n.pc.observed)
    && (n.pc.Deciding? ==> n.pc.own in n.pc.claims && forall c :: c in n.pc.claims ==> OnLog(log, c))
  }

  ghost predicate TerminalDlq(log: seq<Event>, row: Row, e: Event) {
    e in log && e.DlqEvent? && row.floor < e.attempt <= row.attempts
  }

  ghost predicate Backs(i: nat, log: seq<Event>, row: Row, c: ClaimInfo) {
    OnLog(log, c) && c.claimer == i && row.lease == Some(c.leaseExp) && c.attempt <= row.attempts
  }

  /** Every non-pending status is backed by events on the log. */
  ghost predicate Evidence(i: nat, log: seq<Event>, n: Node) {
    && (n.row.status == Acked || n.pc.Acking? ==> HasAck(log))
    && (n.row.status == Dead ==> exists e :: TerminalDlq(log, n.row, e))
    && (n.pc.DeadLettering? ==> DlqEvent(i, n.pc.attempts) in log)
    && (n.row.status == Claimed ==> exists c :: Backs(i, log, n.row, c))
    && (forall a: nat :: DlqEvent(i, a) in log ==> a <= n.row.attempts)
  }

  ghost predicate NodeInv(p: Params, i: nat, clock: nat, log: seq<Event>, n: Node) {
    Shape(p, clock, n) && Generational(log, n) && Surveyed(p, i, log, n) && Evidence(i, log, n)
  }

  /** The log itself: claim ids are distinct and no claim or dlq event runs ahead of the nacks. */
  ghost predicate LogInv(log: seq<Event>) {
    && DistinctIds(ClaimsOf(log))
    && (forall c :: OnLog(log, c) ==> c.attempt <= MaxNack(log))
    && (forall e :: e in log && e.DlqEvent? ==> e.attempt <= MaxNack(log))
  }

  ghost predicate Inv(p: Params, s: State) {
    && WellSized(p, s)
    && LogInv(s.log)
    && (forall i :: 0 <= i < |s.nodes| ==> NodeInv(p, i, s.clock, s.log, s.nodes[i]))
  }

  // ---- A node while others move ------------------------------------------

  ghost predicate Foreign(i: nat, e: Event) {
    match e
    case ClaimEvent(c) => c.claimer != i
    case DlqEvent(a, _) => a != i
    case _ => true
  }

  lemma StableUnderTick(p: Params, i: nat, clock: nat, clock': nat, log: seq<Event>, n: Node)
    requires NodeInv(p, i, clock, log, n) && clock <= clock'
    ensures NodeInv(p, i, clock', log, n)
  {
    assert Seconds(clock) <= Seconds(clock');
  }

  lemma StableUnderForeignEvent(p: Params, i: nat, clock: nat, log: seq<Event>, e: Event, n: Node)
    requires NodeInv(p, i, clock, log, n) && Foreign(i, e)
    ensures NodeInv(p, i, clock, log + [e], n)
  {
    Appended(log, e);
    EvidenceGrows(i, log, e, n);
  }

  lemma EvidenceGrows(i: nat, log: seq<Event>, e: Event, n: Node)
    requires Evidence(i, log, n)
    requires e.DlqEvent? && e.author == i ==> e.attempt <= n.row.attempts
    ensures Evidence(i, log + [e], n)
  {
    Appended(log, e);
    if n.row.status == Dead {
      var d :| TerminalDlq(log, n.row, d);
      assert TerminalDlq(log + [e], n.row, d);
    }
    if n.row.status == Claimed {
      var c :| Backs(i, log, n.row, c);
      assert Backs(i, log + [e], n.row, c);
    }
  }

  // ---- A node that moves -------------------------------------------------

  /** Among the claims seen after settling only the freshly published one can be a win for its
      author, so the lease and attempt recorded locally are the winning claim's. */
  lemma WinnerAfterSettlingIsOwn(p: Params, i: nat, clock: nat, log: seq<Event>, n: Node, minAttempt: nat)
    requires NodeInv(p, i, clock, log, n) && n.pc.Deciding? && minAttempt >= n.pc.observed
    ensures var w := ClaimWinner(n.pc.claims, minAttempt, n.pc.now);
            w.Some? && w.value.claimer == i ==> w.value == n.pc.own
  {
    WinnerIsLeastLive(n.pc.claims, minAttempt, n.pc.now);
  }

  lemma ShapeStep(p: Params, i: nat, clock: nat, log: seq<Event>, n: Node, m: Move)
    requires i < |p.nodes| && NodeInv(p, i, clock, log, n) && NodeEnabled(p, clock, log, n, m)
    ensures Shape(p, clock, NodeStep(p.nodes[i], i, clock, log, n, m).node)
  {
  }

  /** The generation a decision is based on never exceeds the winning claim's attempt. */
  lemma WinIsOfGeneration(p: Params, i: nat, clock: nat, log: seq<Event>, n: Node, m: Move)
    requires i < |p.nodes| && NodeInv(p, i, clock, log, n) && LogInv(log) && NodeEnabled(p, clock, log, n, m)
    requires NodeStep(p.nodes[i], i, clock, log, n, m).won.Some?
    ensures var e := NodeStep(p.nodes[i], i, clock, log, n, m);
            && OnLog(log, e.won.value) && e.won.value.claimer == i
            && e.node == Node(MarkClaimed(n.row, e.won.value.leaseExp, e.won.value.attempt), n.dlq, e.node.pc)
            && e.node.pc.Handling? && e.node.pc.gen <= e.won.value.attempt <= MaxNack(log)
            && e.won.value.leaseExp > n.pc.now && n.pc.observed <= e.won.value.attempt
  {
    if m.SurveyClaims? {
      WinnerIsLeastLive(ClaimsOf(log), n.pc.observed, n.pc.now);
      ClaimsAreMembers(log, ClaimWinner(ClaimsOf(log), n.pc.observed, n.pc.now).value);
    } else {
      var minAttempt := Max(n.pc.observed, MaxNack(log));
      WinnerIsLeastLive(n.pc.claims, minAttempt, n.pc.now);
      WinnerAfterSettlingIsOwn(p, i, clock, log, n, minAttempt);
    }
  }

  lemma GenerationalByPublishing(p: Params, i: nat, clock: nat, log: seq<Event>, n: Node, m: Move)
    requires i < |p.nodes| && NodeInv(p, i, clock, log, n) && NodeEnabled(p, clock, log, n, m)
    requires NodeStep(p.nodes[i], i, clock, log, n, m).published.Some?
    ensures var e := NodeStep(p.nodes[i], i, clock, log, n, m);
            Generational(Extend(log, e.published), e.node)
  {
    Appended(log, NodeStep(p.nodes[i], i, clock, log, n, m).published.value);
  }

  lemma GenerationalAtCheck(p: Params, i: nat, clock: nat, log: seq<Event>, n: Node)
    requires NodeInv(p, i, clock, log, n) && LogInv(log) && n.pc.Checking?
    ensures Generational(log, TerminalCheck(n, log).node)
  {
    MaxDlqBounds(log, AckEvent(0));
  }

  lemma GenerationalOtherwise(p: Params, i: nat, clock: nat, log: seq<Event>, n: Node, m: Move)
    requires i < |p.nodes| && NodeInv(p, i, clock, log, n) && NodeEnabled(p, clock, log, n, m)
    requires !m.CheckTerminal?
    requires var e := NodeStep(p.nodes[i], i, clock, log, n, m); e.published.None? && e.won.None?
    ensures Generational(log, NodeStep(p.nodes[i], i, clock, log, n, m).node)
  {
  }

  lemma GenerationalStep(p: Params, i: nat, clock: nat, log: seq<Event>, n: Node, m: Move)
    requires i < |p.nodes| && NodeInv(p, i, clock, log, n) && LogInv(log) && NodeEnabled(p, clock, log, n, m)
    ensures var e := NodeStep(p.nodes[i], i, clock, log, n, m);
            Generational(Extend(log, e.published), e.node)
  {
    var e := NodeStep(p.nodes[i], i, clock, log, n, m);
    if e.published.Some? {
      GenerationalByPublishing(p, i, clock, log, n, m);
    } else if e.won.Some? {
      WinIsOfGeneration(p, i, clock, log, n, m);
    } else if m.CheckTerminal? {
      GenerationalAtCheck(p, i, clock, log, n);
    } else {
      GenerationalOtherwise(p, i, clock, log, n, m);
    }
  }

  lemma SurveyedByPublishing(p: Params, i: nat, clock: nat, log: seq<Event>, n: Node, m: Move)
    requires i < |p.nodes| && NodeInv(p, i, clock, log, n) && NodeEnabled(p, clock, log, n, m) && m.PublishClaim?
    ensures var e := NodeStep(p.nodes[i], i, clock, log, n, m);
            Surveyed(p, i, Extend(log, e.published), e.node)
  {
    forall c ensures c in ClaimsOf(log) <==> OnLog(log, c) {
      ClaimsAreMembers(log, c);
    }
  }

  lemma SurveyedByReading(p: Params, i: nat, clock: nat, log: seq<Event>, n: Node, m: Move)
    requires i < |p.nodes| && NodeInv(p, i, clock, log, n) && NodeEnabled(p, clock, log, n, m)
    requires m.SurveyClaims? || m.Requery?
    ensures Surveyed(p, i, log, NodeStep(p.nodes[i], i, clock, log, n, m).node)
  {
    forall c ensures c in ClaimsOf(log) <==> OnLog(log, c) {
      ClaimsAreMembers(log, c);
    }
    if m.SurveyClaims? {
      WinnerIsLeastLive(ClaimsOf(log), n.pc.observed, n.pc.now);
    }
  }

  lemma SurveyedStep(p: Params, i: nat, clock: nat, log: seq<Event>, n: Node, m: Move)
    requires i < |p.nodes| && NodeInv(p, i, clock, log, n) && LogInv(log) && NodeEnabled(p, clock, log, n, m)
    ensures var e := NodeStep(p.nodes[i], i, clock, log, n, m);
            Surveyed(p, i, Extend(log, e.published), e.node)
  {
    if m.PublishClaim? {
      SurveyedByPublishing(p, i, clock, log, n, m);
    } else if m.SurveyClaims? || m.Requery? {
      SurveyedByReading(p, i, clock, log, n, m);
    }
  }

  lemma EvidenceByPublishing(p: Params, i: nat, clock: nat, log: seq<Event>, n: Node, m: Move)
    requires i < |p.nodes| && NodeInv(p, i, clock, log, n) && NodeEnabled(p, clock, log, n, m)
    requires NodeStep(p.nodes[i], i, clock, log, n, m).published.Some?
    ensures var e := NodeStep(p.nodes[i], i, clock, log, n, m);
            Evidence(i, Extend(log, e.published), e.node)
  {
    var e := NodeStep(p.nodes[i], i, clock, log, n, m).published.value;
    EvidenceGrows(i, log, e, n);
    Appended(log, e);
  }

  lemma EvidenceByWin(p: Params, i: nat, clock: nat, log: seq<Event>, n: Node, m: Move)
    requires i < |p.nodes| && NodeInv(p, i, clock, log, n) && LogInv(log) && NodeEnabled(p, clock, log, n, m)
    requires NodeStep(p.nodes[i], i, clock, log, n, m).won.Some?
    ensures Evidence(i, log, NodeStep(p.nodes[i], i, clock, log, n, m).node)
  {
    WinIsOfGeneration(p, i, clock, log, n, m);
    var e := NodeStep(p.nodes[i], i, clock, log, n, m);
    assert Backs(i, log, e.node.row, e.won.value);
  }

  lemma EvidenceAtCheck(p: Params, i: nat, clock: nat, log: seq<Event>, n: Node)
    requires NodeInv(p, i, clock, log, n) && n.pc.Checking?
    ensures Evidence(i, log, TerminalCheck(n, log).node)
  {
    MaxDlqBounds(log, AckEvent(0));
    var row := TerminalCheck(n, log).node.row;
    if row.status == Dead {
      var d :| d in log && d.DlqEvent? && d.attempt == MaxDlq(log).value;
      assert TerminalDlq(log, row, d);
    }
  }

  lemma EvidenceOtherwise(p: Params, i: nat, clock: nat, log: seq<Event>, n: Node, m: Move)
    requires i < |p.nodes| && NodeInv(p, i, clock, log, n) && NodeEnabled(p, clock, log, n, m)
    requires !m.CheckTerminal?
    requires var e := NodeStep(p.nodes[i], i, clock, log, n, m); e.published.None? && e.won.None?
    ensures Evidence(i, log, NodeStep(p.nodes[i], i, clock, log, n, m).node)
  {
    if m.FinishDead? {
      assert TerminalDlq(log, MarkDead(n.row), DlqEvent(i, n.pc.attempts));
    } else if m.StartNack? && n.row.status == Claimed {
      var c :| Backs(i, log, n.row, c);
      assert Backs(i, log, IncrAttempts(n.row), c);
    }
  }

  lemma EvidenceStep(p: Params, i: nat, clock: nat, log: seq<Event>, n: Node, m: Move)
    requires i < |p.nodes| && NodeInv(p, i, clock, log, n) && LogInv(log) && NodeEnabled(p, clock, log, n, m)
    ensures var e := NodeStep(p.nodes[i], i, clock, log, n, m);
            Evidence(i, Extend(log, e.published), e.node)
  {
    var e := NodeStep(p.nodes[i], i, clock, log, n, m);
    if e.published.Some? {
      EvidenceByPublishing(p, i, clock, log, n, m);
    } else if e.won.Some? {
      EvidenceByWin(p, i, clock, log, n, m);
    } else if m.CheckTerminal? {
      EvidenceAtCheck(p, i, clock, log, n);
    } else {
      EvidenceOtherwise(p, i, clock, log, n, m);
    }
  }

  lemma LogGrows(log: seq<Event>, e: Event)
    requires LogInv(log)
    requires e.ClaimEvent? ==> e.claim.attempt <= MaxNack(log) && forall c :: c in ClaimsOf(log) ==> c.id != e.claim.id
    requires e.DlqEvent? ==> e.attempt <= MaxNack(log)
    ensures LogInv(log + [e])
  {
    Appended(log, e);
  }

  lemma LogStep(p: Params, i: nat, clock: nat, log: seq<Event>, n: Node, m: Move)
    requires i < |p.nodes| && NodeInv(p, i, clock, log, n) && LogInv(log) && NodeEnabled(p, clock, log, n, m)
    ensures LogInv(Extend(log, NodeStep(p.nodes[i], i, clock, log, n, m).published))
  {
    var e := NodeStep(p.nodes[i], i, clock, log, n, m);
    if e.published.Some? {
      LogGrows(log, e.published.value);
    }
  }

  // ---- The whole system --------------------------------------------------

  lemma InitialInv(p: Params)
    ensures Inv(p, Initial(p))
  {
  }

  lemma MoverStep(p: Params, s: State, i: nat, m: Move)
    requires Inv(p, s) && Enabled(p, s, Act(i, m))
    ensures var e := EffectOf(p, s, i, m);
            NodeInv(p, i, s.clock, Extend(s.log, e.published), e.node) && LogInv(Extend(s.log, e.published))
  {
    var n := s.nodes[i];
    assert NodeInv(p, i, s.clock, s.log, n);
    ShapeStep(p, i, s.clock, s.log, n, m);
    GenerationalStep(p, i, s.clock, s.log, n, m);
    SurveyedStep(p, i, s.clock, s.log, n, m);
    EvidenceStep(p, i, s.clock, s.log, n, m);
    LogStep(p, i, s.clock, s.log, n, m);
  }

  lemma InvStep(p: Params, s: State, a: Action)
    requires Inv(p, s) && Enabled(p, s, a)
    ensures Inv(p, Apply(p, s, a))
  {
    var t := Apply(p, s, a);
    match a
    case Tick(d) =>
      forall i | 0 <= i < |t.nodes| ensures NodeInv(p, i, t.clock, t.log, t.nodes[i]) {
        StableUnderTick(p, i, s.clock, t.clock, s.log, s.nodes[i]);
      }
    case Act(i, m) =>
      var e := EffectOf(p, s, i, m);
      MoverStep(p, s, i, m);
      forall j | 0 <= j < |t.nodes| ensures NodeInv(p, j, t.clock, t.log, t.nodes[j]) {
        if j != i {
          assert NodeInv(p, j, s.clock, s.log, s.nodes[j]);
        }
        if j != i && e.published.Some? {
          PublishedBy(p, s, i, m);
          StableUnderForeignEvent(p, j, s.clock, s.log, e.published.value, s.nodes[j]);
        }
      }
  }

  /** The invariant holds in every state the system can reach. */
  lemma {:induction false} InvAlways(p: Params, s: State, acts: seq<Action>, t: State)
    requires Inv(p, s) && Exec(p, s, acts) == Some(t)
    ensures Inv(p, t)
  {
    if acts != [] {
      var mid := Exec(p, s, acts[..|acts| - 1]).value;
      InvAlways(p, s, acts[..|acts| - 1], mid);
      InvStep(p, mid, acts[|acts| - 1]);
    }
  }

  lemma ReachableInv(p: Params, s: State)
    requires Reachable(p, s)
    ensures Inv(p, s)
  {
    var acts :| Exec(p, Initial(p), acts) == Some(s);
    InitialInv(p);
    InvAlways(p, Initial(p), acts, s);
  }

  // ---- Facts for the results built on the invariant -----------------------

  lemma NackIsAhead(p: Params, s: State, i: nat)
    requires Inv(p, s) && i < |s.nodes| && s.nodes[i].pc.Nacking?
    ensures s.nodes[i].pc.gen < s.nodes[i].pc.attempts <= MaxNack(s.log) + 1
  {
    assert NodeInv(p, i, s.clock, s.log, s.nodes[i]);
  }

  /** One step of one node: what it leaves alone and what it can only raise. */
  lemma RowOnlyRises(p: Params, i: nat, clock: nat, log: seq<Event>, n: Node, m: Move)
    requires i < |p.nodes| && Shape(p, clock, n) && NodeEnabled(p, clock, log, n, m)
    ensures var r := NodeStep(p.nodes[i], i, clock, log, n, m).node.row;
            && n.row.attempts <= r.attempts && n.row.floor <= r.floor
            && (!m.RetryDead? ==> r.floor == n.row.floor)
  {
  }

  /** Which moves publish, and what. */
  lemma PublishedBy(p: Params, s: State, i: nat, m: Move)
    requires Enabled(p, s, Act(i, m))
    ensures var e := EffectOf(p, s, i, m).published;
            && (e.Some? && e.value.NackEvent? <==> m.PublishNack?)
            && (m.PublishNack? ==> e == Some(NackEvent(i, s.nodes[i].pc.attempts)))
            && (e.Some? && e.value.ClaimEvent? <==> m.PublishClaim?)
            && (m.PublishClaim? ==> e == Some(ClaimEvent(OwnClaim(p.nodes[i], i, s.nodes[i].pc, m.id, m.createdAt))))
            && (e.Some? && e.value.AckEvent? <==> m.PublishAck?)
            && (e.Some? && e.value.DlqEvent? ==> m.JudgeNack? && e == Some(DlqEvent(i, s.nodes[i].pc.attempts)))
            && (e.Some? ==> EffectOf(p, s, i, m).won.None?)
  {
  }
}
