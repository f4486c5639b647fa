/** `NostrQ` as the code runs it: crates/nostr-q/src/lib.rs, `try_claim`, `ack`, `nack`, written
    against the store and a relay that other nodes write to at every await. Each method is proved to
    walk exactly the steps of `ClaimProtocol`, for every schedule of foreign activity. */
module Client {
  import opened Base
  import opened Claims
  import opened Rows
  import opened Backoff
  import opened ClaimProtocol
  import opened MessageStore

  // ---- The relay as one node sees it -------------------------------------

  /** What happens elsewhere while this node awaits: time passes and foreign events land. */
  datatype Arrival = Arrival(millis: nat, events: seq<Event>)

  datatype World = World(clock: nat, log: seq<Event>, arrivals: seq<Arrival>)

  function Passed(w: World): World {
    if w.arrivals == [] then w
    else World(w.clock + w.arrivals[0].millis, w.log + w.arrivals[0].events, w.arrivals[1..])
  }

  class Relay {
    var clock: nat
    var log: seq<Event>
    var arrivals: seq<Arrival>

    function Now(): World
      reads this
    {
      World(clock, log, arrivals)
    }

    method Elapse()
      modifies this
      ensures Now() == Passed(old(Now()))
    {
      if arrivals != [] {
        clock, log, arrivals := clock + arrivals[0].millis, log + arrivals[0].events, arrivals[1..];
      }
    }

    method Query() returns (events: seq<Event>)
      modifies this
      ensures Now() == Passed(old(Now())) && events == log
    {
      Elapse();
      events := log;
    }

    method Publish(e: Event)
      modifies this
      ensures Now() == Passed(old(Now())).(log := Passed(old(Now())).log + [e])
    {
      Elapse();
      log := log + [e];
    }

    method Sleep(millis: nat)
      modifies this
      ensures Now() == old(Now()).(clock := old(Now()).clock + millis)
    {
      clock := clock + millis;
    }
  }

  // ---- A task as a walk through protocol steps ---------------------------

  datatype Goal = ToClaim(id: nat, createdAt: int) | ToAck | ToNack

  predicate Done(pc: Pc, goal: Goal) {
    pc.Idle? || (pc.Handling? && goal.ToClaim?)
  }

  function NextMove(pc: Pc, goal: Goal): Move
    requires !Done(pc, goal)
  {
    match pc
    case Polled(_) => Begin
    case Checking(_, _) => CheckTerminal
    case SurveyingNacks(_, _) => SurveyNacks
    case SurveyingClaims(_, _, _) => SurveyClaims
    case Contending(_, _, _, _, _) =>
      if goal.ToClaim? then PublishClaim(goal.id, goal.createdAt) else PublishClaim(0, 0)
    case Settling(_, _, _, _, _, _) => Requery
    case Deciding(_, _, _, _, _, _, _) => Decide
    case Handling(_) => if goal.ToAck? then PublishAck else StartNack
    case Acking => FinishAck
    case Nacking(_, _, _) => PublishNack
    case Nacked(_, _) => JudgeNack
    case DeadLettering(_, _) => FinishDead
  }

  /** The next step starts with an await, so others may act before it. */
  predicate Awaits(cfg: Config, pc: Pc, goal: Goal) {
    match pc
    case Nacked(floor, attempts) => SinceFloor(attempts, floor) >= cfg.maxAttempts
    case Handling(_) => goal.ToAck?
    case _ => !pc.Polled? && !pc.Acking? && !pc.DeadLettering?
  }

  /** The world in which the next step takes effect. */
  function Awaited(settle: nat, cfg: Config, n: Node, w: World, goal: Goal): World {
    var slept := if n.pc.Settling? then w.(clock := w.clock + settle) else w;
    if Awaits(cfg, n.pc, goal) then Passed(slept) else slept
  }

  function Rank(pc: Pc): nat {
    match pc
    case Idle => 0
    case Acking => 1
    case DeadLettering(_, _) => 1
    case Nacked(_, _) => 2
    case Nacking(_, _, _) => 3
    case Handling(_) => 4
    case Deciding(_, _, _, _, _, _, _) => 5
    case Settling(_, _, _, _, _, _) => 6
    case Contending(_, _, _, _, _) => 7
    case SurveyingClaims(_, _, _) => 8
    case SurveyingNacks(_, _) => 9
    case Checking(_, _) => 10
    case Polled(_) => 11
  }

  /** Run a node's task to its end, one protocol step at a time. */
  function Walk(settle: nat, cfg: Config, i: nat, n: Node, w: World, goal: Goal): (Node, World)
    decreases Rank(n.pc)
  {
    if Done(n.pc, goal) then (n, w)
    else
      var w' := Awaited(settle, cfg, n, w, goal);
      var e := NodeStep(cfg, i, w'.clock, w'.log, n, NextMove(n.pc, goal));
      Walk(settle, cfg, i, e.node, w'.(log := Extend(w'.log, e.published)), goal)
  }

  /** One step of a walk. */
  lemma WalkOn(settle: nat, cfg: Config, i: nat, n: Node, w: World, goal: Goal, n': Node, w': World)
    requires !Done(n.pc, goal)
    requires var at := Awaited(settle, cfg, n, w, goal);
             var e := NodeStep(cfg, i, at.clock, at.log, n, NextMove(n.pc, goal));
             n' == e.node && w' == at.(log := Extend(at.log, e.published))
    ensures Walk(settle, cfg, i, n, w, goal) == Walk(settle, cfg, i, n', w', goal)
    ensures Done(n'.pc, goal) ==> Walk(settle, cfg, i, n, w, goal) == (n', w')
  {
  }

  /** From a published claim to the end: sleep and re-read claims, re-read nacks, decide. */
  lemma WalkFromSettling(settle: nat, cfg: Config, i: nat, n: Node, w: World, goal: Goal, w2: World, w3: World)
    requires n.pc.Settling? && goal.ToClaim?
    requires w2 == Passed(w.(clock := w.clock + settle)) && w3 == Passed(w2)
    ensures var own, claims := n.pc.own, ClaimsOf(w2.log);
            var pc := Deciding(n.pc.rec, n.pc.now, n.pc.observed, n.pc.surveyed, own, n.pc.publishedAt, claims);
            Walk(settle, cfg, i, n, w, goal) == (Decision(cfg, i, n.(pc := pc), w3.log).node, w3)
  {
    var pc := Deciding(n.pc.rec, n.pc.now, n.pc.observed, n.pc.surveyed, n.pc.own, n.pc.publishedAt, ClaimsOf(w2.log));
    WalkOn(settle, cfg, i, n, w, goal, n.(pc := pc), w2);
    WalkOn(settle, cfg, i, n.(pc := pc), w2, goal, Decision(cfg, i, n.(pc := pc), w3.log).node, w3);
  }

  /** Contending to the end: publish, and on from there. */
  lemma WalkFromContending(settle: nat, cfg: Config, i: nat, n: Node, w: World, id: nat, createdAt: int,
                           w1: World, w2: World, w3: World)
    requires n.pc.Contending?
    requires w1 == Passed(w).(log := Passed(w).log + [ClaimEvent(OwnClaim(cfg, i, n.pc, id, createdAt))])
    requires w2 == Passed(w1.(clock := w1.clock + settle)) && w3 == Passed(w2)
    ensures var own := OwnClaim(cfg, i, n.pc, id, createdAt);
            var pc := Deciding(n.pc.rec, n.pc.now, n.pc.observed, n.pc.surveyed, own, w1.clock, ClaimsOf(w2.log));
            Walk(settle, cfg, i, n, w, ToClaim(id, createdAt)) == (Decision(cfg, i, n.(pc := pc), w3.log).node, w3)
  {
    var own := OwnClaim(cfg, i, n.pc, id, createdAt);
    var n1 := n.(pc := Settling(n.pc.rec, n.pc.now, n.pc.observed, n.pc.surveyed, own, w1.clock));
    WalkOn(settle, cfg, i, n, w, ToClaim(id, createdAt), n1, w1);
    WalkFromSettling(settle, cfg, i, n1, w1, ToClaim(id, createdAt), w2, w3);
  }

  /** Where a nack ends, given the world in which its event landed. */
  function NackEnd(cfg: Config, i: nat, n: Node, w: World): (Node, World) {
    var row := IncrAttempts(n.row);
    var sinceFloor := SinceFloor(row.attempts, row.floor);
    if sinceFloor >= cfg.maxAttempts
    then (Node(MarkDead(row), Some(row.attempts), Idle), Passed(w).(log := Passed(w).log + [DlqEvent(i, row.attempts)]))
    else (Node(MarkPending(row, Seconds(w.clock) + BackoffSecs(cfg.retryBase, sinceFloor)), n.dlq, Idle), w)
  }

  /** The end of a nack by its columns: the budget counted from the floor decides, the delay is the
      documented one, and a dead letter is announced with the attempt. */
  lemma NackEndByColumns(cfg: Config, i: nat, n: Node, w: World)
    ensures var row, end := n.row, NackEnd(cfg, i, n, w);
            var since := row.attempts + 1 - row.floor;
            if Max(0, since) >= cfg.maxAttempts
            then && end.0.row == row.(attempts := row.attempts + 1, status := Dead, lease := None)
                 && end.1 == Passed(w).(log := Passed(w).log + [DlqEvent(i, row.attempts + 1)])
            else && end.0.row == row.(attempts := row.attempts + 1, status := Pending, lease := None,
                                      visibleAt := Seconds(w.clock) + IdealBackoff(cfg.retryBase, Max(1, since)))
                 && end.1 == w
  {
    var since := n.row.attempts + 1 - n.row.floor;
    BackoffIsIdeal(cfg.retryBase, Max(1, since));
  }

  function NackLanded(i: nat, n: Node, w: World): World {
    Passed(w).(log := Passed(w).log + [NackEvent(i, n.row.attempts + 1)])
  }

  /** What `nack` does is the protocol's walk from a handled job: bump, publish, judge, settle. */
  lemma WalkOfNack(settle: nat, cfg: Config, i: nat, n: Node, w: World)
    requires n.pc.Handling?
    ensures Walk(settle, cfg, i, n, w, ToNack) == NackEnd(cfg, i, n, NackLanded(i, n, w))
  {
    var w1 := NackLanded(i, n, w);
    var floor, attempts := n.row.floor, n.row.attempts + 1;
    var n1 := n.(row := IncrAttempts(n.row), pc := Nacking(n.pc.gen, floor, attempts));
    WalkOn(settle, cfg, i, n, w, ToNack, n1, w);
    var n2 := n1.(pc := Nacked(floor, attempts));
    WalkOn(settle, cfg, i, n1, w, ToNack, n2, w1);
    var end := NackEnd(cfg, i, n, w1);
    if SinceFloor(attempts, floor) >= cfg.maxAttempts {
      WalkOn(settle, cfg, i, n2, w1, ToNack, n2.(pc := DeadLettering(floor, attempts)), end.1);
      WalkOn(settle, cfg, i, n2.(pc := DeadLettering(floor, attempts)), end.1, ToNack, end.0, end.1);
    } else {
      WalkOn(settle, cfg, i, n2, w1, ToNack, end.0, end.1);
    }
  }

  function NodeOf(messages: Messages, dlq: map<string, DlqEntry>, mid: string, pc: Pc): Node
    requires mid in messages
  {
    Node(messages[mid].row, if mid in dlq then Some(dlq[mid].attempts) else None, pc)
  }

  /** Nothing outside message `mid` changed. */
  ghost predicate OnlyRow(m: Messages, m': Messages, d: map<string, DlqEntry>, d': map<string, DlqEntry>, mid: string) {
    && m'.Keys == m.Keys
    && (forall k :: k in m && k != mid ==> m'[k] == m[k])
    && (mid in m ==> m'[mid] == m[mid].(row := m'[mid].row, consumer := m'[mid].consumer))
    && d' - {mid} == d - {mid}
  }

  datatype Attempted = Won | Lost | Failed

  datatype NackOutcome = Retry(attempt: nat, visibleAt: int) | DeadLettered | NackFailed

  /** `QueueConfig::work_queue` defaults, used when the queue's own config is gone. */
  const WORK_QUEUE_DEFAULTS := Config(60, 5, 5)

  class NostrQ {
    const me: nat
    const key: string
    const store: Store
    const relay: Relay

    constructor (me: nat, key: string, store: Store, relay: Relay)
      ensures this.me == me && this.key == key && this.store == store && this.relay == relay
    {
      this.me, this.key, this.store, this.relay := me, key, store, relay;
    }

    /** The row is claimed by this node until `lease`, its counter healed to what was observed. */
    ghost predicate WonRow(m: Messages, m': Messages, rec: Record, lease: int, observed: nat) {
      && rec.mid in m && rec.mid in m'
      && var was, row := m[rec.mid], m'[rec.mid].row;
         && m'[rec.mid] == was.(consumer := Some(key), row := row)
         && row == was.row.(status := Claimed, lease := Some(lease), attempts := row.attempts)
         && row.attempts == Max(was.row.attempts, Max(rec.row.attempts, observed))
    }

    /** The row, the dlq entry and the relay have reached `end`, and `won` tells how it ended. */
    ghost predicate Reached(mid: string, end: (Node, World), r: Attempted)
      reads store, relay
    {
      && mid in store.messages
      && NodeOf(store.messages, store.dlq, mid, end.0.pc) == end.0
      && relay.Now() == end.1
      && (r.Won? <==> end.0.pc.Handling?)
    }

    /** Phase 1. `None` lets the attempt go on to the survey with nothing changed locally. */
    method CheckRelay(settle: nat, cfg: Config, rec: Record, now: int, ghost goal: Goal) returns (r: Option<Attempted>)
      requires store.Valid() && goal.ToClaim?
      modifies store, relay
      ensures store.Valid() && OnlyRow(old(store.messages), store.messages, old(store.dlq), store.dlq, rec.mid)
      ensures r.None? ==> store.messages == old(store.messages) && store.dlq == old(store.dlq)
      ensures rec.mid in old(store.messages) ==>
                var n := old(NodeOf(store.messages, store.dlq, rec.mid, Checking(rec.row, now)));
                var end := Walk(settle, cfg, me, n, old(relay.Now()), goal);
                if r.Some? then Reached(rec.mid, end, r.value)
                else
                  var n' := NodeOf(store.messages, store.dlq, rec.mid, SurveyingNacks(rec.row, now));
                  end == Walk(settle, cfg, me, n', relay.Now(), goal)
      ensures r != Some(Attempted.Won)
      ensures r == Some(Lost) ==>
                && rec.mid in store.messages && (HasAck(relay.log) <==> store.messages[rec.mid].row.status == Acked)
                && (!HasAck(relay.log) ==>
                      var rec' := store.messages[rec.mid];
                      var entry := DlqEntry(rec'.queue, "dead-lettered by remote worker", rec'.row.attempts);
                      rec'.row.status == Dead && store.dlq == old(store.dlq)[rec.mid := entry])
    {
      ghost var before := relay.Now();
      var terminal := relay.Query();
      if rec.mid in store.messages {
        ghost var n := NodeOf(store.messages, store.dlq, rec.mid, Checking(rec.row, now));
        WalkOn(settle, cfg, me, n, before, goal, TerminalCheck(n, terminal).node, relay.Now());
      }
      if HasAck(terminal) {
        var u := store.MarkAcked(rec.mid);
        return Some(if u.Ok? then Lost else Failed);
      }
      var dlqAttempt := MaxDlq(terminal);
      if dlqAttempt.Some? && dlqAttempt.value > rec.row.floor {
        var u := store.MoveToDlqAt(rec.mid, "dead-lettered by remote worker", dlqAttempt.value);
        return Some(if u.Ok? then Lost else Failed);
      }
      r := None;
    }

    /** Phase 2. Recognizes the node's own live claim, backs off from a foreign one, or reports what
        was observed so that the node can contend. */
    method SurveyRelay(settle: nat, cfg: Config, rec: Record, now: int, ghost goal: Goal)
      returns (r: Option<Attempted>, observed: nat, ghost existing: seq<ClaimInfo>)
      requires store.Valid() && goal.ToClaim?
      modifies store, relay
      ensures store.Valid() && OnlyRow(old(store.messages), store.messages, old(store.dlq), store.dlq, rec.mid)
      ensures r.None? ==> store.messages == old(store.messages) && store.dlq == old(store.dlq)
      ensures rec.mid in old(store.messages) ==>
                var n := old(NodeOf(store.messages, store.dlq, rec.mid, SurveyingNacks(rec.row, now)));
                var end := Walk(settle, cfg, me, n, old(relay.Now()), goal);
                if r.Some? then Reached(rec.mid, end, r.value)
                else
                  var pc := Contending(rec.row, now, observed, existing, relay.clock);
                  end == Walk(settle, cfg, me, NodeOf(store.messages, store.dlq, rec.mid, pc), relay.Now(), goal)
      ensures rec.mid !in old(store.messages) ==> r != Some(Attempted.Won)
      ensures r == Some(Attempted.Won) ==> store.messages[rec.mid].consumer == Some(key)
      ensures r != Some(Attempted.Won) ==> store.messages == old(store.messages) && store.dlq == old(store.dlq)
    {
      ghost var before := relay.Now();
      var nacks := relay.Query();
      observed := MaxNack(nacks);
      ghost var mid1 := relay.Now();
      var surveyed := relay.Query();
      var claims := ClaimsOf(surveyed);
      existing := claims;
      if rec.mid in store.messages {
        ghost var n := NodeOf(store.messages, store.dlq, rec.mid, SurveyingNacks(rec.row, now));
        ghost var n1 := n.(pc := SurveyingClaims(rec.row, now, observed));
        WalkOn(settle, cfg, me, n, before, goal, n1, mid1);
        WalkOn(settle, cfg, me, n1, mid1, goal, ClaimSurvey(me, relay.clock, n1, surveyed).node, relay.Now());
      }
      var winner := ClaimWinner(claims, observed, now);
      if winner.Some? {
        if winner.value.claimer == me {
          var u := store.MarkClaimed(rec.mid, key, winner.value.leaseExp, winner.value.attempt);
          r := Some(if u.Ok? then Attempted.Won else Failed);
          return;
        }
        r := Some(Lost);
        return;
      }
      r := None;
    }

    /** The decision that ends phase 3, on the claims re-read after the settle window. */
    method Conclude(cfg: Config, rec: Record, now: int, observed: nat, claims: seq<ClaimInfo>, laterNacks: seq<Event>,
                    ghost pc: Pc) returns (r: Attempted)
      requires store.Valid()
      requires pc.Deciding? && pc.rec == rec.row && pc.now == now && pc.observed == observed && pc.claims == claims
      modifies store
      ensures store.Valid() && OnlyRow(old(store.messages), store.messages, old(store.dlq), store.dlq, rec.mid)
      ensures rec.mid in old(store.messages) ==>
                var n := old(NodeOf(store.messages, store.dlq, rec.mid, pc));
                Reached(rec.mid, (Decision(cfg, me, n, laterNacks).node, relay.Now()), r)
      ensures rec.mid !in old(store.messages) ==> !r.Won?
      ensures r.Won? ==> WonRow(old(store.messages), store.messages, rec, now + cfg.lease, observed)
      ensures !r.Won? ==> store.messages == old(store.messages)
      ensures store.dlq == old(store.dlq)
    {
      var minAttempt := Max(observed, MaxNack(laterNacks));
      var best := ClaimWinner(claims, minAttempt, now);
      if best.Some? && best.value.claimer == me {
        var u := store.MarkClaimed(rec.mid, key, now + cfg.lease, Max(rec.row.attempts, observed));
        return if u.Ok? then Attempted.Won else Failed;
      }
      r := Lost;
    }

    /** The claim goes out, the settle window passes, claims and then nacks are read again. */
    method PublishAndSettle(settle: nat, claim: ClaimInfo)
      returns (claims: seq<ClaimInfo>, laterNacks: seq<Event>, ghost w1: World, ghost w2: World)
      modifies relay
      ensures w1 == old(Passed(relay.Now())).(log := old(Passed(relay.Now())).log + [ClaimEvent(claim)])
      ensures w2 == Passed(w1.(clock := w1.clock + settle)) && relay.Now() == Passed(w2)
      ensures claims == ClaimsOf(w2.log) && laterNacks == relay.log && ClaimEvent(claim) in relay.log
    {
      relay.Publish(ClaimEvent(claim));
      w1 := relay.Now();
      relay.Sleep(settle);
      var settled := relay.Query();
      claims := ClaimsOf(settled);
      w2 := relay.Now();
      laterNacks := relay.Query();
    }

    /** Phase 3: publish a claim, wait out the settle window, and look again at claims and nacks,
        against the `now` of the survey. */
    method Contend(settle: nat, cfg: Config, rec: Record, now: int, observed: nat, id: nat, createdAt: int,
                   ghost existing: seq<ClaimInfo>) returns (r: Attempted)
      requires store.Valid()
      modifies store, relay
      ensures store.Valid() && OnlyRow(old(store.messages), store.messages, old(store.dlq), store.dlq, rec.mid)
      ensures rec.mid in old(store.messages) ==>
                var pc := Contending(rec.row, now, observed, existing, old(relay.clock));
                var n, w := old(NodeOf(store.messages, store.dlq, rec.mid, pc)), old(relay.Now());
                Reached(rec.mid, Walk(settle, cfg, me, n, w, ToClaim(id, createdAt)), r)
      ensures rec.mid !in old(store.messages) ==> !r.Won?
      ensures var attempt := if rec.row.attempts < observed then observed else rec.row.attempts;
              ClaimEvent(ClaimInfo(me, id, createdAt, now + cfg.lease, attempt)) in relay.log
      ensures r.Won? ==> WonRow(old(store.messages), store.messages, rec, now + cfg.lease, observed)
      ensures !r.Won? ==> store.messages == old(store.messages)
      ensures store.dlq == old(store.dlq)
    {
      ghost var w := relay.Now();
      var claim := ClaimInfo(me, id, createdAt, now + cfg.lease, Max(rec.row.attempts, observed));
      var claims, laterNacks;
      ghost var w1, w2;
      claims, laterNacks, w1, w2 := PublishAndSettle(settle, claim);
      if rec.mid in store.messages {
        ghost var pc := Contending(rec.row, now, observed, existing, w.clock);
        ghost var n := NodeOf(store.messages, store.dlq, rec.mid, pc);
        WalkFromContending(settle, cfg, me, n, w, id, createdAt, w1, w2, relay.Now());
      }
      r := Conclude(cfg, rec, now, observed, claims, laterNacks,
                    Deciding(rec.row, now, observed, existing, claim, w1.clock, claims));
    }

    /** `rec` is the row as fetched by the poll; it may be older than the stored one. Every other row
        and dlq entry is left alone, except that an expired message triggers a sweep of its queue. */
    method TryClaim(cfg: Config, settle: nat, rec: Record, id: nat, createdAt: int) returns (r: Attempted)
      requires store.Valid()
      requires rec.mid in store.messages ==> store.messages[rec.mid].queue == rec.queue
      modifies store, relay
      ensures store.Valid()
      ensures rec.mid in old(store.messages) ==>
                Reached(rec.mid, Walk(settle, cfg, me, old(NodeOf(store.messages, store.dlq, rec.mid, Polled(rec.row))),
                                      old(relay.Now()), ToClaim(id, createdAt)), r)
      ensures rec.mid !in old(store.messages) ==> !r.Won?
      ensures r.Won? ==> store.messages[rec.mid].consumer == Some(key)
      ensures if PastExpiry(rec.row, Seconds(old(relay.clock)))
              then && store.messages == old(SweptTable(store.messages, rec.queue, Seconds(relay.clock)))
                   && store.dlq == old(store.dlq)
              else OnlyRow(old(store.messages), store.messages, old(store.dlq), store.dlq, rec.mid)
      ensures rec.row.expiresAt.Some? && rec.row.expiresAt.value <= Seconds(old(relay.clock)) ==>
                && r.Lost? && relay.Now() == old(relay.Now())
                && forall k :: (&& k in old(store.messages) && old(store.messages)[k].queue == rec.queue
                                && old(store.messages)[k].row.status in {Pending, Claimed}
                                && old(store.messages)[k].row.expiresAt.Some?
                                && old(store.messages)[k].row.expiresAt.value <= Seconds(old(relay.clock))) ==>
                               k in store.messages && store.messages[k].row.status == Expired
    {
      ghost var goal := ToClaim(id, createdAt);
      var now := Seconds(relay.clock);
      if PastExpiry(rec.row, now) {
        var expired := store.ExpireDue(rec.queue, now);
        return Lost;
      }
      if rec.mid in store.messages {
        ghost var n := NodeOf(store.messages, store.dlq, rec.mid, Polled(rec.row));
        assert Walk(settle, cfg, me, n, relay.Now(), goal)
            == Walk(settle, cfg, me, n.(pc := Checking(rec.row, now)), relay.Now(), goal);
      }
      var ended := CheckRelay(settle, cfg, rec, now, goal);
      if ended.Some? { return ended.value; }
      var observed;
      ghost var existing;
      ended, observed, existing := SurveyRelay(settle, cfg, rec, now, goal);
      if ended.Some? { return ended.value; }
      r := Contend(settle, cfg, rec, now, observed, id, createdAt, existing);
    }

    /** Publishes one ack, whoever holds the lease, and marks the row. */
    method Ack(settle: nat, cfg: Config, mid: string, ghost gen: nat) returns (ok: bool)
      requires store.Valid()
      modifies store, relay
      ensures store.Valid()
      ensures ok <==> mid in old(store.messages)
      ensures ok ==>
                var n := old(NodeOf(store.messages, store.dlq, mid, Handling(gen)));
                var end := Walk(settle, cfg, me, n, old(relay.Now()), ToAck);
                && store.messages == old(WithRow(store.messages, mid, end.0.row)) && store.dlq == old(store.dlq)
                && relay.Now() == end.1 && end.0.pc.Idle?
      ensures ok ==>
                var rec := old(store.messages)[mid];
                && store.messages == old(store.messages)[mid := rec.(row := rec.row.(status := Acked, lease := None))]
                && relay.log == old(Passed(relay.Now())).log + [AckEvent(me)]
      ensures !ok ==> store.messages == old(store.messages) && relay.Now() == old(relay.Now())
    {
      var rec := store.GetMessage(mid);
      if rec.None? { return false; }
      ghost var n, w := NodeOf(store.messages, store.dlq, mid, Handling(gen)), relay.Now();
      relay.Publish(AckEvent(me));
      WalkOn(settle, cfg, me, n, w, ToAck, n.(pc := Acking), relay.Now());
      ghost var acked := Node(Rows.MarkAcked(n.row), n.dlq, Idle);
      WalkOn(settle, cfg, me, n.(pc := Acking), relay.Now(), ToAck, acked, relay.Now());
      var u := store.MarkAcked(mid);
      ok := true;
    }

    /** The budget branch of `nack`, once the nack event has landed. */
    method JudgeNack(cfg: Config, rec: Record, attempts: nat, reason: string) returns (r: NackOutcome)
      requires store.Valid() && rec.mid in store.messages && rec.row.attempts + 1 == attempts
      requires store.messages[rec.mid] == rec.(row := rec.row.(attempts := attempts))
      modifies store, relay
      ensures store.Valid() && !r.NackFailed?
      ensures var end := NackEnd(cfg, me, Node(rec.row, None, Idle), old(relay.Now()));
              relay.Now() == end.1 && store.messages == old(store.messages)[rec.mid := rec.(row := end.0.row)]
      ensures r.DeadLettered? <==> Max(0, attempts - rec.row.floor) >= cfg.maxAttempts
      ensures r.Retry? ==>
                && r.attempt == attempts && store.dlq == old(store.dlq) && relay.log == old(relay.log)
                && r.visibleAt == Seconds(relay.clock) + IdealBackoff(cfg.retryBase, Max(1, attempts - rec.row.floor))
                && store.messages[rec.mid].row
                   == rec.row.(status := Pending, lease := None, attempts := attempts, visibleAt := r.visibleAt)
      ensures r.DeadLettered? ==>
                && store.dlq == old(store.dlq)[rec.mid := DlqEntry(rec.queue, reason, attempts)]
                && store.messages[rec.mid].row == rec.row.(status := Dead, lease := None, attempts := attempts)
                && relay.log == old(Passed(relay.Now())).log + [DlqEvent(me, attempts)]
    {
      NackEndByColumns(cfg, me, Node(rec.row, None, Idle), relay.Now());
      var sinceFloor := SinceFloor(attempts, rec.row.floor);
      if sinceFloor >= cfg.maxAttempts {
        relay.Publish(DlqEvent(me, attempts));
        var u := store.MoveToDlq(rec.mid, reason);
        r := DeadLettered;
      } else {
        var visibleAt := Seconds(relay.clock) + BackoffSecs(cfg.retryBase, sinceFloor);
        BackoffIsIdeal(cfg.retryBase, Max(1, attempts - rec.row.floor));
        var u := store.MarkPending(rec.mid, visibleAt);
        r := Retry(attempts, visibleAt);
      }
    }

    /** Raises the counter and announces the new generation. */
    method CountNack(rec: Record) returns (attempts: nat)
      requires store.Valid() && rec.mid in store.messages && store.messages[rec.mid] == rec
      modifies store, relay
      ensures store.Valid() && attempts == rec.row.attempts + 1 && store.dlq == old(store.dlq)
      ensures store.messages == old(store.messages)[rec.mid := rec.(row := rec.row.(attempts := attempts))]
      ensures relay.Now() == NackLanded(me, Node(rec.row, None, Idle), old(relay.Now()))
      ensures relay.log == old(Passed(relay.Now())).log + [NackEvent(me, attempts)]
    {
      var bumped := store.IncrAttempts(rec.mid);
      attempts := bumped.value;
      relay.Publish(NackEvent(me, attempts));
    }

    /** Counts, publishes and judges; a queue whose config is gone falls back to five attempts and a base
        delay of five seconds. */
    method Nack(config: Option<Config>, mid: string, reason: string) returns (r: NackOutcome)
      requires store.Valid()
      modifies store, relay
      ensures store.Valid()
      ensures r.NackFailed? <==> mid !in old(store.messages)
      ensures r.NackFailed? ==>
                store.messages == old(store.messages) && store.dlq == old(store.dlq) && relay.Now() == old(relay.Now())
      ensures mid in old(store.messages) ==>
                var cfg := if config.Some? then config.value else WORK_QUEUE_DEFAULTS;
                var n := Node(old(store.messages)[mid].row, None, Idle);
                var end := NackEnd(cfg, me, n, NackLanded(me, n, old(relay.Now())));
                relay.Now() == end.1 && store.messages == old(WithRow(store.messages, mid, end.0.row))
      ensures mid in old(store.messages) ==>
                var was := old(store.messages)[mid].row;
                var max := if config.Some? then config.value.maxAttempts else 5;
                r.DeadLettered? <==> Max(0, was.attempts + 1 - was.floor) >= max
      ensures r.Retry? ==>
                var was := old(store.messages)[mid].row;
                var base := if config.Some? then config.value.retryBase else 5;
                && r.attempt == was.attempts + 1
                && r.visibleAt == Seconds(relay.clock) + IdealBackoff(base, Max(1, r.attempt - was.floor))
                && mid in store.messages && store.dlq == old(store.dlq)
                && store.messages[mid].row
                   == was.(attempts := r.attempt, status := Pending, lease := None, visibleAt := r.visibleAt)
                && relay.log == old(Passed(relay.Now())).log + [NackEvent(me, r.attempt)]
      ensures r.DeadLettered? ==>
                var was := old(store.messages)[mid];
                var attempt := was.row.attempts + 1;
                && mid in store.messages && store.dlq == old(store.dlq)[mid := DlqEntry(was.queue, reason, attempt)]
                && store.messages[mid].row == was.row.(attempts := attempt, status := Dead, lease := None)
                && old(Passed(relay.Now())).log + [NackEvent(me, attempt)] <= relay.log
                && relay.log[|relay.log| - 1] == DlqEvent(me, attempt)
    {
      var found := store.GetMessage(mid);
      if found.None? { return NackFailed; }
      var cfg := if config.Some? then config.value else WORK_QUEUE_DEFAULTS;
      var attempts := CountNack(found.value);
      r := JudgeNack(cfg, found.value, attempts, reason);
    }
  }
}
