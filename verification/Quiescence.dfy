/** After an ack: crates/nostr-q/src/lib.rs:206-227 and 259-272. */
module Quiescence {
  import opened Base
  import opened Rows
  import opened ClaimProtocol
  import opened Invariants
  import opened Traffic

  /** An attempt that has passed its terminal check and not yet published. */
  predicate PastCheck(pc: Pc) {
    pc.SurveyingNacks? || pc.SurveyingClaims? || pc.Contending?
  }

  /** A task with nothing in flight beyond a terminal check. */
  predicate BeforeCheck(pc: Pc) {
    pc.Idle? || pc.Polled? || pc.Checking?
  }

  /** Claims on the log plus the claim an attempt may still publish. */
  function ClaimPotential(s: State, i: nat): nat
    requires i < |s.nodes|
  {
    |OwnClaims(s.log, i)| + if PastCheck(s.nodes[i].pc) then 1 else 0
  }

  lemma AckStays(p: Params, s: State, a: Action)
    requires Enabled(p, s, a) && HasAck(s.log)
    ensures HasAck(Apply(p, s, a).log)
  {
    if a.Act? && EffectOf(p, s, a.i, a.move).published.Some? {
      Appended(s.log, EffectOf(p, s, a.i, a.move).published.value);
    }
  }

  /** With an ack on the log nobody passes the terminal check, and publishing ends what had. */
  lemma CheckBlocks(p: Params, i: nat, clock: nat, log: seq<Event>, n: Node, m: Move)
    requires i < |p.nodes| && NodeEnabled(p, clock, log, n, m) && HasAck(log)
    ensures var n' := NodeStep(p.nodes[i], i, clock, log, n, m).node;
            && (PastCheck(n'.pc) ==> PastCheck(n.pc))
            && (m.PublishClaim? ==> PastCheck(n.pc) && !PastCheck(n'.pc))
            && (BeforeCheck(n.pc) ==> BeforeCheck(n'.pc))
  {
  }

  lemma PotentialStep(p: Params, s: State, a: Action, i: nat)
    requires Enabled(p, s, a) && HasAck(s.log) && i < |s.nodes|
    ensures ClaimPotential(Apply(p, s, a), i) <= ClaimPotential(s, i)
    ensures BeforeCheck(s.nodes[i].pc) ==> BeforeCheck(Apply(p, s, a).nodes[i].pc)
  {
    if a.Act? {
      PublishedBy(p, s, a.i, a.move);
      CheckBlocks(p, a.i, s.clock, s.log, s.nodes[a.i], a.move);
      var e := EffectOf(p, s, a.i, a.move).published;
      if e.Some? {
        OwnClaimsAppend(s.log, e.value, i);
      }
    }
  }

  /** Once an ack is on the log, each node adds at most one more claim over any run, and only if an
      attempt of its own was already past the terminal check. */
  lemma {:induction false} PostAckQuiescence(p: Params, s: State, acts: seq<Action>, t: State, i: nat)
    requires HasAck(s.log) && Exec(p, s, acts) == Some(t) && i < |s.nodes|
    ensures HasAck(t.log) && |t.nodes| == |s.nodes|
    ensures ClaimPotential(t, i) <= ClaimPotential(s, i)
    ensures |OwnClaims(t.log, i)| <= |OwnClaims(s.log, i)| + if PastCheck(s.nodes[i].pc) then 1 else 0
    ensures BeforeCheck(s.nodes[i].pc) ==> BeforeCheck(t.nodes[i].pc)
  {
    if acts != [] {
      var mid := Exec(p, s, acts[..|acts| - 1]).value;
      PostAckQuiescence(p, s, acts[..|acts| - 1], mid, i);
      AckStays(p, mid, acts[|acts| - 1]);
      PotentialStep(p, mid, acts[|acts| - 1], i);
    }
  }

  /** A node with nothing past the terminal check when the ack lands never publishes anything again
      about the message and never wins it, and whenever one of its later attempts reaches the
      terminal check the attempt ends there with the row acked, even if a late nack had reset it. */
  lemma LaterAttemptsOnlyLearnTheAck(p: Params, s: State, acts: seq<Action>, t: State, i: nat, m: Move)
    requires HasAck(s.log) && Exec(p, s, acts) == Some(t) && i < |s.nodes| && BeforeCheck(s.nodes[i].pc)
    requires Enabled(p, t, Act(i, m))
    ensures EffectOf(p, t, i, m).published.None? && EffectOf(p, t, i, m).won.None?
    ensures var n := t.nodes[i];
            m.CheckTerminal? ==> EffectOf(p, t, i, m).node == Node(n.row.(status := Acked, lease := None), n.dlq, Idle)
  {
    PostAckQuiescence(p, s, acts, t, i);
  }
}
