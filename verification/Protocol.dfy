/** The competing-consumer claim protocol for one message: crates/nostr-q/src/lib.rs, `try_claim`,
    `ack`, `nack`, `sweep_expired`, under the task discipline of crates/nostr-q-worker/src/lib.rs.

    Nodes share one append-only relay log and one clock, and nothing else. Each await of the
    source is a step of its own, so every interleaving of the nodes is a sequence of `Action`s. */
module ClaimProtocol {
  import opened Base
  import opened Claims
  import opened Rows
  import opened Backoff

  // ---- The relay log -----------------------------------------------------

  /** Lifecycle events that reference the message. */
  datatype Event =
    | ClaimEvent(claim: ClaimInfo)
    | AckEvent(author: nat)
    | NackEvent(author: nat, attempt: nat)
    | DlqEvent(author: nat, attempt: nat)

  function ClaimsOf(log: seq<Event>): seq<ClaimInfo> {
    if log == [] then []
    else
      var e := log[|log| - 1];
      ClaimsOf(log[..|log| - 1]) + if e.ClaimEvent? then [e.claim] else []
  }

  function NacksOf(log: seq<Event>): seq<nat> {
    if log == [] then []
    else
      var e := log[|log| - 1];
      NacksOf(log[..|log| - 1]) + if e.NackEvent? then [e.attempt] else []
  }

  /** Highest attempt among the nack events, 0 when there is none. */
  function MaxNack(log: seq<Event>): nat {
    if log == [] then 0
    else
      var e := log[|log| - 1];
      var m := MaxNack(log[..|log| - 1]);
      if e.NackEvent? then Max(m, e.attempt) else m
  }

  function MaxDlq(log: seq<Event>): Option<nat> {
    if log == [] then None
    else
      var e := log[|log| - 1];
      var m := MaxDlq(log[..|log| - 1]);
      if e.DlqEvent? then Some(if m.Some? then Max(m.value, e.attempt) else e.attempt) else m
  }

  predicate HasAck(log: seq<Event>) {
    exists e :: e in log && e.AckEvent?
  }

  // ---- Nodes -------------------------------------------------------------

  /** Where a worker task for the message stands. `rec` is the row fetched by the poll and `now` the
      time read at the start of `try_claim`. `surveyedAt` and `publishedAt` only serve the timing
      assumptions; `gen` is the nack generation the winning decision was based on. */
  datatype Pc =
    | Idle
    | Polled(rec: Row)
    | Checking(rec: Row, now: int)
    | SurveyingNacks(rec: Row, now: int)
    | SurveyingClaims(rec: Row, now: int, observed: nat)
    | Contending(rec: Row, now: int, observed: nat, surveyed: seq<ClaimInfo>, surveyedAt: nat)
    | Settling(rec: Row, now: int, observed: nat, surveyed: seq<ClaimInfo>, own: ClaimInfo, publishedAt: nat)
    | Deciding(rec: Row, now: int, observed: nat, surveyed: seq<ClaimInfo>, own: ClaimInfo, publishedAt: nat,
               claims: seq<ClaimInfo>)
    | Handling(gen: nat)
    | Acking
    | Nacking(gen: nat, floor: nat, attempts: nat)
    | Nacked(floor: nat, attempts: nat)
    | DeadLettering(floor: nat, attempts: nat)

  /** `dlq` is the attempts column of the node's dlq table entry for the message. */
  datatype Node = Node(row: Row, dlq: Option<nat>, pc: Pc)

  datatype Config = Config(lease: nat, maxAttempts: nat, retryBase: u64)

  /** `settle` and `latency` in milliseconds: every contender's claim is assumed to land at most
      `latency` after its survey was read. */
  datatype Params = Params(settle: nat, latency: nat, nodes: seq<Config>,
                           notBefore: Option<int>, expiresAt: Option<int>, start: nat)

  /** `wins` records, for each `try_claim` that returned true, the claim event that won. */
  datatype State = State(clock: nat, log: seq<Event>, nodes: seq<Node>, wins: set<ClaimInfo>)

  datatype Move =
    | Poll | Begin | CheckTerminal | SurveyNacks | SurveyClaims
    | PublishClaim(id: nat, createdAt: int) | Requery | Decide | Abort
    | PublishAck | FinishAck
    | StartNack | PublishNack | JudgeNack | FinishDead
    | Sweep | RetryDead

  datatype Action = Tick(millis: nat) | Act(i: nat, move: Move)

  /** `Utc::now().timestamp()` */
  function Seconds(clock: nat): nat {
    clock / 1000
  }

  // ---- One step of one node ----------------------------------------------

  /** The move is the next thing the node's task, an operator or the sweeper can do. */
  predicate Fits(n: Node, m: Move) {
    match m
    case Poll => n.pc.Idle?
    case Begin => n.pc.Polled?
    case CheckTerminal => n.pc.Checking?
    case SurveyNacks => n.pc.SurveyingNacks?
    case SurveyClaims => n.pc.SurveyingClaims?
    case PublishClaim(_, _) => n.pc.Contending?
    case Requery => n.pc.Settling?
    case Decide => n.pc.Deciding?
    case Abort => n.pc.Polled? || n.pc.Checking? || n.pc.SurveyingNacks? || n.pc.SurveyingClaims?
                  || n.pc.Contending? || n.pc.Handling?
    case PublishAck => n.pc.Handling?
    case FinishAck => n.pc.Acking?
    case StartNack => n.pc.Handling?
    case PublishNack => n.pc.Nacking?
    case JudgeNack => n.pc.Nacked?
    case FinishDead => n.pc.DeadLettering?
    case Sweep => true
    case RetryDead => n.row.status == Dead
  }

  /** Guards and timing: polls select claimable rows, event ids are fresh, claims land within the
      assumed latency, and a contender waits out its settle window. */
  predicate NodeEnabled(p: Params, clock: nat, log: seq<Event>, n: Node, m: Move) {
    && Fits(n, m)
    && (m.Poll? ==> Claimable(n.row, Seconds(clock)))
    && (m.PublishClaim? ==> clock <= n.pc.surveyedAt + p.latency && forall c :: c in ClaimsOf(log) ==> c.id != m.id)
    && (m.Requery? ==> n.pc.publishedAt + p.settle <= clock)
  }

  /** The node afterwards, the event it appended to the log, and the claim it won with. */
  datatype Effect = Effect(node: Node, published: Option<Event>, won: Option<ClaimInfo>)

  function Quiet(n: Node): Effect {
    Effect(n, None, None)
  }

  function OwnClaim(cfg: Config, i: nat, pc: Pc, id: nat, createdAt: int): ClaimInfo
    requires pc.Contending?
  {
    ClaimInfo(i, id, createdAt, pc.now + cfg.lease, Max(pc.rec.attempts, pc.observed))
  }

  function Won(n: Node, w: ClaimInfo, gen: nat): Effect {
    Effect(n.(row := MarkClaimed(n.row, w.leaseExp, w.attempt), pc := Handling(gen)), None, Some(w))
  }

  function TerminalCheck(n: Node, log: seq<Event>): Effect
    requires n.pc.Checking?
  {
    if HasAck(log) then Quiet(n.(row := MarkAcked(n.row), pc := Idle))
    else if MaxDlq(log).Some? && MaxDlq(log).value > n.pc.rec.floor then
      var row := MarkDeadAt(n.row, MaxDlq(log).value);
      Quiet(Node(row, Some(row.attempts), Idle))
    else Quiet(n.(pc := SurveyingNacks(n.pc.rec, n.pc.now)))
  }

  function ClaimSurvey(i: nat, clock: nat, n: Node, log: seq<Event>): Effect
    requires n.pc.SurveyingClaims?
  {
    var existing := ClaimsOf(log);
    var winner := ClaimWinner(existing, n.pc.observed, n.pc.now);
    if winner.Some? then
      if winner.value.claimer == i then Won(n, winner.value, n.pc.observed) else Quiet(n.(pc := Idle))
    else Quiet(n.(pc := Contending(n.pc.rec, n.pc.now, n.pc.observed, existing, clock)))
  }

  /** The row records the locally computed lease and attempt, not the winner's. */
  function Decision(cfg: Config, i: nat, n: Node, log: seq<Event>): Effect
    requires n.pc.Deciding?
  {
    var minAttempt := Max(n.pc.observed, MaxNack(log));
    var winner := ClaimWinner(n.pc.claims, minAttempt, n.pc.now);
    if winner.Some? && winner.value.claimer == i then
      var row := MarkClaimed(n.row, n.pc.now + cfg.lease, Max(n.pc.rec.attempts, n.pc.observed));
      Effect(n.(row := row, pc := Handling(minAttempt)), None, winner)
    else Quiet(n.(pc := Idle))
  }

  /** Attempts counted against the budget, `saturating_sub` of the floor. */
  function SinceFloor(attempts: nat, floor: nat): nat {
    if attempts >= floor then attempts - floor else 0
  }

  function Judgement(cfg: Config, i: nat, clock: nat, n: Node): Effect
    requires n.pc.Nacked?
  {
    var sinceFloor := SinceFloor(n.pc.attempts, n.pc.floor);
    if sinceFloor >= cfg.maxAttempts then
      Effect(n.(pc := DeadLettering(n.pc.floor, n.pc.attempts)), Some(DlqEvent(i, n.pc.attempts)), None)
    else
      Quiet(n.(row := MarkPending(n.row, Seconds(clock) + BackoffSecs(cfg.retryBase, sinceFloor)), pc := Idle))
  }

  function NodeStep(cfg: Config, i: nat, clock: nat, log: seq<Event>, n: Node, m: Move): Effect
    requires Fits(n, m)
  {
    match m
    case Poll => Quiet(n.(pc := Polled(n.row)))
    case Begin =>
      if PastExpiry(n.pc.rec, Seconds(clock)) then Quiet(n.(row := Swept(n.row, Seconds(clock)), pc := Idle))
      else Quiet(n.(pc := Checking(n.pc.rec, Seconds(clock))))
    case CheckTerminal => TerminalCheck(n, log)
    case SurveyNacks => Quiet(n.(pc := SurveyingClaims(n.pc.rec, n.pc.now, MaxNack(log))))
    case SurveyClaims => ClaimSurvey(i, clock, n, log)
    case PublishClaim(id, createdAt) =>
      var own := OwnClaim(cfg, i, n.pc, id, createdAt);
      var pc := Settling(n.pc.rec, n.pc.now, n.pc.observed, n.pc.surveyed, own, clock);
      Effect(n.(pc := pc), Some(ClaimEvent(own)), None)
    case Requery =>
      var pc := Deciding(n.pc.rec, n.pc.now, n.pc.observed, n.pc.surveyed, n.pc.own, n.pc.publishedAt, ClaimsOf(log));
      Quiet(n.(pc := pc))
    case Decide => Decision(cfg, i, n, log)
    case Abort => Quiet(n.(pc := Idle))
    case PublishAck => Effect(n.(pc := Acking), Some(AckEvent(i)), None)
    case FinishAck => Quiet(n.(row := MarkAcked(n.row), pc := Idle))
    case StartNack =>
      var row := IncrAttempts(n.row);
      Quiet(n.(row := row, pc := Nacking(n.pc.gen, row.floor, row.attempts)))
    case PublishNack => Effect(n.(pc := Nacked(n.pc.floor, n.pc.attempts)), Some(NackEvent(i, n.pc.attempts)), None)
    case JudgeNack => Judgement(cfg, i, clock, n)
    case FinishDead =>
      var row := MarkDead(n.row);
      Quiet(Node(row, Some(row.attempts), Idle))
    case Sweep => Quiet(n.(row := Swept(n.row, Seconds(clock))))
    case RetryDead => Quiet(n.(row := Retried(n.row), dlq := None))
  }

  // ---- The whole system --------------------------------------------------

  predicate WellSized(p: Params, s: State) {
    |s.nodes| == |p.nodes|
  }

  predicate Enabled(p: Params, s: State, a: Action) {
    match a
    case Tick(_) => true
    case Act(i, m) => i < |s.nodes| == |p.nodes| && NodeEnabled(p, s.clock, s.log, s.nodes[i], m)
  }

  function Extend(log: seq<Event>, e: Option<Event>): seq<Event> {
    if e.Some? then log + [e.value] else log
  }

  function EffectOf(p: Params, s: State, i: nat, m: Move): Effect
    requires Enabled(p, s, Act(i, m))
  {
    NodeStep(p.nodes[i], i, s.clock, s.log, s.nodes[i], m)
  }

  function Apply(p: Params, s: State, a: Action): State
    requires Enabled(p, s, a)
  {
    match a
    case Tick(d) => s.(clock := s.clock + d)
    case Act(i, m) =>
      var e := EffectOf(p, s, i, m);
      State(s.clock, Extend(s.log, e.published), s.nodes[i := e.node],
            if e.won.Some? then s.wins + {e.won.value} else s.wins)
  }

  /** Every node has inserted the message, published at attempt 0, and nothing has happened yet. */
  function FreshRow(p: Params): Row {
    Row(Pending, 0, 0, None, if p.notBefore.Some? then p.notBefore.value else 0, p.expiresAt)
  }

  function Initial(p: Params): State {
    State(p.start, [], seq(|p.nodes|, _ => Node(FreshRow(p), None, Idle)), {})
  }

  /** The state a sequence of actions leads to, if every action is enabled in its turn. */
  function Exec(p: Params, s: State, acts: seq<Action>): Option<State> {
    if acts == [] then Some(s)
    else
      var before := Exec(p, s, acts[..|acts| - 1]);
      if before.Some? && Enabled(p, before.value, acts[|acts| - 1])
      then Some(Apply(p, before.value, acts[|acts| - 1]))
      else None
  }

  ghost predicate Reachable(p: Params, s: State) {
    exists acts :: Exec(p, Initial(p), acts) == Some(s)
  }

  lemma ExecSnoc(p: Params, s: State, acts: seq<Action>, a: Action)
    requires Exec(p, s, acts).Some? && Enabled(p, Exec(p, s, acts).value, a)
    ensures Exec(p, s, acts + [a]) == Some(Apply(p, Exec(p, s, acts).value, a))
  {
    assert (acts + [a])[..|acts|] == acts;
  }

  // ---- Reading the log ---------------------------------------------------

  lemma {:induction false} ClaimsAreMembers(log: seq<Event>, c: ClaimInfo)
    ensures c in ClaimsOf(log) <==> ClaimEvent(c) in log
  {
    if log != [] {
      ClaimsAreMembers(log[..|log| - 1], c);
      assert log == log[..|log| - 1] + [log[|log| - 1]];
    }
  }

  /** What one more event changes about every query. */
  lemma Appended(log: seq<Event>, e: Event)
    ensures ClaimsOf(log + [e]) == ClaimsOf(log) + if e.ClaimEvent? then [e.claim] else []
    ensures NacksOf(log + [e]) == NacksOf(log) + if e.NackEvent? then [e.attempt] else []
    ensures MaxNack(log + [e]) == if e.NackEvent? then Max(MaxNack(log), e.attempt) else MaxNack(log)
    ensures MaxDlq(log + [e])
         == if !e.DlqEvent? then MaxDlq(log)
            else Some(if MaxDlq(log).Some? then Max(MaxDlq(log).value, e.attempt) else e.attempt)
    ensures HasAck(log + [e]) <==> HasAck(log) || e.AckEvent?
  {
    assert (log + [e])[..|log|] == log;
    if e.AckEvent? {
      assert e in log + [e];
    }
    if HasAck(log) {
      var a :| a in log && a.AckEvent?;
      assert a in log + [e];
    }
  }

  lemma {:induction false} MaxDlqBounds(log: seq<Event>, e: Event)
    ensures e in log && e.DlqEvent? ==> MaxDlq(log).Some? && e.attempt <= MaxDlq(log).value
    ensures MaxDlq(log).Some? ==> exists d :: d in log && d.DlqEvent? && d.attempt == MaxDlq(log).value
  {
    if log != [] {
      var init, last := log[..|log| - 1], log[|log| - 1];
      assert log == init + [last];
      MaxDlqBounds(init, e);
      if MaxDlq(log).Some? {
        if last.DlqEvent? && MaxDlq(log).value == last.attempt {
          assert last in log;
        } else {
          var d :| d in init && d.DlqEvent? && d.attempt == MaxDlq(init).value;
          assert d in log;
        }
      }
    }
  }
}
