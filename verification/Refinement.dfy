/** The code-shaped client and the step system agree: a walk is the node's part of a run of the system,
    with the other nodes acting at its awaits or with nobody else acting at all. */
module Refinement {
  import opened Base
  import opened ClaimProtocol
  import opened Invariants
  import opened SoloRuns
  import opened Client

  /** The node's task may take its next step at once: its claim id is fresh and, since nobody else
      acts, no time has passed since its survey. */
  ghost predicate Undisturbed(p: Params, s: State, i: nat, goal: Goal) {
    && i < |s.nodes| == |p.nodes|
    && (HasRec(s.nodes[i].pc) ==> goal.ToClaim?)
    && (HasRec(s.nodes[i].pc) && !HasOwn(s.nodes[i].pc) ==> forall c :: c in ClaimsOf(s.log) ==> c.id != goal.id)
    && (s.nodes[i].pc.Contending? ==> s.clock <= s.nodes[i].pc.surveyedAt)
    && (s.nodes[i].pc.Settling? ==> s.nodes[i].pc.publishedAt <= s.clock)
  }

  function Quietly(s: State): World {
    World(s.clock, s.log, [])
  }

  /** The system actions behind one step of a walk. */
  function StepActions(p: Params, s: State, i: nat, goal: Goal): seq<Action>
    requires i < |s.nodes| && !Done(s.nodes[i].pc, goal)
  {
    (if s.nodes[i].pc.Settling? then [Tick(p.settle)] else []) + [Act(i, NextMove(s.nodes[i].pc, goal))]
  }

  /** The state in which the walk's next move is taken. */
  function Ready(p: Params, s: State, i: nat): State
    requires i < |s.nodes|
  {
    if s.nodes[i].pc.Settling? then s.(clock := s.clock + p.settle) else s
  }

  lemma WalkStepIsRun(p: Params, s: State, i: nat, goal: Goal)
    requires Undisturbed(p, s, i, goal) && !Done(s.nodes[i].pc, goal)
    ensures Enabled(p, Ready(p, s, i), Act(i, NextMove(s.nodes[i].pc, goal)))
    ensures Exec(p, s, StepActions(p, s, i, goal))
         == Some(Apply(p, Ready(p, s, i), Act(i, NextMove(s.nodes[i].pc, goal))))
  {
    var m := NextMove(s.nodes[i].pc, goal);
    assert Exec(p, s, []) == Some(s);
    var acts := [];
    if s.nodes[i].pc.Settling? {
      ExecSnoc(p, s, [], Tick(p.settle));
      acts := [] + [Tick(p.settle)];
    }
    ExecSnoc(p, s, acts, Act(i, m));
    assert acts + [Act(i, m)] == StepActions(p, s, i, goal);
  }

  lemma StepGetsNearer(p: Params, s: State, i: nat, goal: Goal)
    requires i < |s.nodes| == |p.nodes| && !Done(s.nodes[i].pc, goal)
    requires Enabled(p, s, Act(i, NextMove(s.nodes[i].pc, goal)))
    ensures Rank(EffectOf(p, s, i, NextMove(s.nodes[i].pc, goal)).node.pc) < Rank(s.nodes[i].pc)
  {
  }

  lemma StaysUndisturbed(p: Params, s: State, i: nat, goal: Goal)
    requires Undisturbed(p, s, i, goal) && !Done(s.nodes[i].pc, goal)
    requires Enabled(p, Ready(p, s, i), Act(i, NextMove(s.nodes[i].pc, goal)))
    ensures var t := Apply(p, Ready(p, s, i), Act(i, NextMove(s.nodes[i].pc, goal)));
            Undisturbed(p, t, i, goal) && Rank(t.nodes[i].pc) < Rank(s.nodes[i].pc)
  {
    PublishedBy(p, Ready(p, s, i), i, NextMove(s.nodes[i].pc, goal));
    StepGetsNearer(p, Ready(p, s, i), i, goal);
  }

  lemma WalkStepAgrees(p: Params, s: State, i: nat, goal: Goal)
    requires Undisturbed(p, s, i, goal) && !Done(s.nodes[i].pc, goal)
    requires Enabled(p, Ready(p, s, i), Act(i, NextMove(s.nodes[i].pc, goal)))
    ensures var t := Apply(p, Ready(p, s, i), Act(i, NextMove(s.nodes[i].pc, goal)));
            && Walk(p.settle, p.nodes[i], i, s.nodes[i], Quietly(s), goal)
            == Walk(p.settle, p.nodes[i], i, t.nodes[i], Quietly(t), goal)
  {
    var t := Apply(p, Ready(p, s, i), Act(i, NextMove(s.nodes[i].pc, goal)));
    WalkOn(p.settle, p.nodes[i], i, s.nodes[i], Quietly(s), goal, t.nodes[i], Quietly(t));
  }

  /** One step of an undisturbed walk, with the actions behind it. */
  lemma QuietStep(p: Params, s: State, i: nat, goal: Goal) returns (acts: seq<Action>, t: State)
    requires Undisturbed(p, s, i, goal) && !Done(s.nodes[i].pc, goal)
    ensures Exec(p, s, acts) == Some(t) && Undisturbed(p, t, i, goal) && Rank(t.nodes[i].pc) < Rank(s.nodes[i].pc)
    ensures |t.nodes| == |s.nodes| && t.nodes == s.nodes[i := t.nodes[i]]
    ensures Walk(p.settle, p.nodes[i], i, s.nodes[i], Quietly(s), goal)
         == Walk(p.settle, p.nodes[i], i, t.nodes[i], Quietly(t), goal)
  {
    WalkStepIsRun(p, s, i, goal);
    StaysUndisturbed(p, s, i, goal);
    WalkStepAgrees(p, s, i, goal);
    acts, t := StepActions(p, s, i, goal), Apply(p, Ready(p, s, i), Act(i, NextMove(s.nodes[i].pc, goal)));
  }

  /** Walking a task to its end with nobody else acting is a run of the whole system in which only
      this node moves, ending in the same row, log and time. */
  lemma {:induction false} WalkIsRun(p: Params, s: State, i: nat, goal: Goal) returns (acts: seq<Action>, t: State)
    requires Undisturbed(p, s, i, goal)
    ensures Exec(p, s, acts) == Some(t) && |t.nodes| == |s.nodes|
    ensures (t.nodes[i], Quietly(t)) == Walk(p.settle, p.nodes[i], i, s.nodes[i], Quietly(s), goal)
    ensures t.nodes == s.nodes[i := t.nodes[i]]
    decreases Rank(s.nodes[i].pc)
  {
    if Done(s.nodes[i].pc, goal) {
      acts, t := [], s;
    } else {
      var first, mid := QuietStep(p, s, i, goal);
      var rest;
      rest, t := WalkIsRun(p, mid, i, goal);
      acts := first + rest;
      ExecConcat(p, s, first, rest);
    }
  }

  // ---- A walk among others -----------------------------------------------

  /** The clock and the other nodes. */
  predicate Elsewhere(i: nat, acts: seq<Action>) {
    forall k :: 0 <= k < |acts| ==> acts[k].Act? ==> acts[k].i != i
  }

  /** The actions of a run that are not node `i`'s, in order. */
  function NotBy(acts: seq<Action>, i: nat): seq<Action> {
    if acts == [] then []
    else
      var last := acts[|acts| - 1];
      NotBy(acts[..|acts| - 1], i) + if last.Act? && last.i == i then [] else [last]
  }

  lemma {:induction false} NotByConcat(xs: seq<Action>, ys: seq<Action>, i: nat)
    ensures NotBy(xs + ys, i) == NotBy(xs, i) + NotBy(ys, i)
  {
    if ys == [] {
      assert xs + ys == xs;
    } else {
      NotByConcat(xs, ys[..|ys| - 1], i);
      assert (xs + ys)[..|xs + ys| - 1] == xs + ys[..|ys| - 1];
    }
  }

  lemma {:induction false} NotByElsewhere(acts: seq<Action>, i: nat)
    requires Elsewhere(i, acts)
    ensures NotBy(acts, i) == acts
  {
    if acts != [] {
      NotByElsewhere(acts[..|acts| - 1], i);
    }
  }

  lemma {:induction false} ElsewhereKeeps(p: Params, s: State, acts: seq<Action>, t: State, i: nat)
    requires Elsewhere(i, acts) && Exec(p, s, acts) == Some(t) && i < |s.nodes|
    ensures |t.nodes| == |s.nodes| && t.nodes[i] == s.nodes[i] && t.clock >= s.clock && s.log <= t.log
  {
    if acts != [] {
      ElsewhereKeeps(p, s, acts[..|acts| - 1], Exec(p, s, acts[..|acts| - 1]).value, i);
    }
  }

  /** The walk's next step taken after `batch` happened elsewhere. */
  ghost predicate StepAfter(p: Params, s: State, i: nat, goal: Goal, batch: seq<Action>) {
    && i < |s.nodes| == |p.nodes| && !Done(s.nodes[i].pc, goal)
    && Elsewhere(i, batch) && Exec(p, s, batch).Some?
    && (!Awaits(p.nodes[i], s.nodes[i].pc, goal) ==> batch == [])
    && var mid := Exec(p, s, batch).value;
       && (s.nodes[i].pc.Settling? ==> mid.clock >= s.clock + p.settle)
       && Enabled(p, mid, Act(i, NextMove(s.nodes[i].pc, goal)))
  }

  ghost function After(p: Params, s: State, i: nat, goal: Goal, batch: seq<Action>): State
    requires StepAfter(p, s, i, goal, batch)
  {
    Apply(p, Exec(p, s, batch).value, Act(i, NextMove(s.nodes[i].pc, goal)))
  }

  /** `batches[k]` is what happens elsewhere before the walk's step `k`: anything the clock and the
      other nodes can do while the step awaits, and nothing before a step without an await. The walk
      is done after the last of them. A contender's claim is fresh and lands within the assumed
      latency, and its settle window passes. */
  ghost predicate Interleaves(p: Params, s: State, i: nat, goal: Goal, batches: seq<seq<Action>>)
    decreases |batches|
  {
    if batches == [] then i < |s.nodes| == |p.nodes| && Done(s.nodes[i].pc, goal)
    else StepAfter(p, s, i, goal, batches[0]) && Interleaves(p, After(p, s, i, goal, batches[0]), i, goal, batches[1..])
  }

  function Flat(batches: seq<seq<Action>>): seq<Action> {
    if batches == [] then [] else batches[0] + Flat(batches[1..])
  }

  /** What the walking node notices of a batch. */
  function ArrivalOf(settling: bool, settle: nat, s: State, mid: State): Arrival
    requires s.clock + (if settling then settle else 0) <= mid.clock && |s.log| <= |mid.log|
  {
    Arrival(mid.clock - s.clock - (if settling then settle else 0), mid.log[|s.log|..])
  }

  lemma BatchIsArrival(p: Params, s: State, i: nat, goal: Goal, batch: seq<Action>, later: seq<Arrival>)
      returns (arrivals: seq<Arrival>)
    requires StepAfter(p, s, i, goal, batch)
    ensures var mid := Exec(p, s, batch).value;
            && Awaited(p.settle, p.nodes[i], s.nodes[i], World(s.clock, s.log, arrivals), goal)
            == World(mid.clock, mid.log, later)
    ensures i < |Exec(p, s, batch).value.nodes| && Exec(p, s, batch).value.nodes[i] == s.nodes[i]
  {
    var mid := Exec(p, s, batch).value;
    ElsewhereKeeps(p, s, batch, mid, i);
    if Awaits(p.nodes[i], s.nodes[i].pc, goal) {
      arrivals := [ArrivalOf(s.nodes[i].pc.Settling?, p.settle, s, mid)] + later;
      assert s.log + mid.log[|s.log|..] == mid.log;
      assert arrivals[1..] == later;
    } else {
      arrivals := later;
    }
  }

  lemma WalkGoesOn(p: Params, s: State, i: nat, goal: Goal, batch: seq<Action>,
                   arrivals: seq<Arrival>, later: seq<Arrival>)
    requires StepAfter(p, s, i, goal, batch) && i < |Exec(p, s, batch).value.nodes|
    requires Exec(p, s, batch).value.nodes[i] == s.nodes[i]
    requires var mid := Exec(p, s, batch).value;
             && Awaited(p.settle, p.nodes[i], s.nodes[i], World(s.clock, s.log, arrivals), goal)
             == World(mid.clock, mid.log, later)
    ensures var t := After(p, s, i, goal, batch);
            && i < |t.nodes|
            && Walk(p.settle, p.nodes[i], i, s.nodes[i], World(s.clock, s.log, arrivals), goal)
            == Walk(p.settle, p.nodes[i], i, t.nodes[i], World(t.clock, t.log, later), goal)
  {
    var t := After(p, s, i, goal, batch);
    var w, w' := World(s.clock, s.log, arrivals), World(t.clock, t.log, later);
    WalkOn(p.settle, p.nodes[i], i, s.nodes[i], w, goal, t.nodes[i], w');
  }

  lemma RunGoesOn(p: Params, s: State, i: nat, goal: Goal, batch: seq<Action>, rest: seq<Action>, t: State)
    requires StepAfter(p, s, i, goal, batch) && Exec(p, After(p, s, i, goal, batch), rest) == Some(t)
    ensures var acts := batch + [Act(i, NextMove(s.nodes[i].pc, goal))] + rest;
            Exec(p, s, acts) == Some(t) && NotBy(acts, i) == batch + NotBy(rest, i)
  {
    var step := [Act(i, NextMove(s.nodes[i].pc, goal))];
    ExecSnoc(p, s, batch, step[0]);
    ExecConcat(p, s, batch + step, rest);
    NotByElsewhere(batch, i);
    NotByConcat(batch, step, i);
    NotByConcat(batch + step, rest, i);
    assert NotBy(step, i) == [];
  }

  /** A walk whose arrivals come from the other nodes is this node's part of one interleaved run: the
      run takes exactly the others' actions, in their order, with the walk's steps in between, and
      ends in the same row, log and time. So whatever holds in every reachable state holds where
      `try_claim`, `ack` and `nack` end. */
  lemma {:induction false} WalkIsPartOfRun(p: Params, s: State, i: nat, goal: Goal, batches: seq<seq<Action>>)
      returns (acts: seq<Action>, t: State, arrivals: seq<Arrival>)
    requires Interleaves(p, s, i, goal, batches)
    ensures Exec(p, s, acts) == Some(t) && NotBy(acts, i) == Flat(batches)
    ensures i < |s.nodes| == |p.nodes| && i < |t.nodes|
    ensures Walk(p.settle, p.nodes[i], i, s.nodes[i], World(s.clock, s.log, arrivals), goal)
         == (t.nodes[i], World(t.clock, t.log, []))
    ensures Reachable(p, s) ==> Reachable(p, t)
    decreases |batches|
  {
    if batches == [] {
      acts, t, arrivals := [], s, [];
    } else {
      var batch := batches[0];
      var rest, later;
      rest, t, later := WalkIsPartOfRun(p, After(p, s, i, goal, batch), i, goal, batches[1..]);
      arrivals := BatchIsArrival(p, s, i, goal, batch, later);
      WalkGoesOn(p, s, i, goal, batch, arrivals, later);
      RunGoesOn(p, s, i, goal, batch, rest, t);
      acts := batch + [Act(i, NextMove(s.nodes[i].pc, goal))] + rest;
    }
    StillReachable(p, s, acts, t);
  }

  lemma StillReachable(p: Params, s: State, acts: seq<Action>, t: State)
    requires Exec(p, s, acts) == Some(t)
    ensures Reachable(p, s) ==> Reachable(p, t)
  {
    if Reachable(p, s) {
      var before :| Exec(p, Initial(p), before) == Some(s);
      ExecConcat(p, Initial(p), before, acts);
    }
  }
}
