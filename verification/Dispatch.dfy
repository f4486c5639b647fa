/** The worker's dispatch loop: crates/nostr-q-worker/src/lib.rs:151-298. The loop and every spawned
    task run concurrently; they share the in-flight set and the semaphore. */
module Dispatch {
  import opened Base

  /** A task first runs its job; when it ends, its guard leaves the in-flight set and only then is
      its permit returned, because locals drop in reverse order of declaration. */
  datatype Stage = Running | Releasing

  datatype Task = Task(mid: string, stage: Stage)

  datatype Loop =
    | Sleeping
    | Dispatching(batch: seq<string>)
    | Acquiring(mid: string, rest: seq<string>)
    | Spawning(mid: string, rest: seq<string>)
    | Draining
    | Stopped

  datatype Worker = Worker(concurrency: nat, inFlight: set<string>, free: nat, tasks: map<nat, Task>, loop: Loop)

  datatype Step =
    | Fetch(batch: seq<string>)
    | NextRecord
    | TryAcquire
    | Spawn(id: nat)
    | EndJob(id: nat)
    | ReleasePermit(id: nat)
    | Shutdown
    | Drained

  predicate Enabled(w: Worker, a: Step) {
    match a
    case Fetch(_) => w.loop.Sleeping?
    case NextRecord => w.loop.Dispatching?
    case TryAcquire => w.loop.Acquiring?
    case Spawn(id) => w.loop.Spawning? && id !in w.tasks
    case EndJob(id) => id in w.tasks && w.tasks[id].stage.Running?
    case ReleasePermit(id) => id in w.tasks && w.tasks[id].stage.Releasing?
    case Shutdown => w.loop.Sleeping?
    case Drained => w.loop.Draining? && w.free >= w.concurrency
  }

  function Apply(w: Worker, a: Step): Worker
    requires Enabled(w, a)
  {
    match a
    case Fetch(batch) => w.(loop := Dispatching(batch))
    case NextRecord =>
      if w.loop.batch == [] then w.(loop := Sleeping)
      else
        var mid, rest := w.loop.batch[0], w.loop.batch[1..];
        if mid in w.inFlight then w.(loop := Dispatching(rest))
        else w.(inFlight := w.inFlight + {mid}, loop := Acquiring(mid, rest))
    case TryAcquire =>
      if w.free > 0 then w.(free := w.free - 1, loop := Spawning(w.loop.mid, w.loop.rest))
      else w.(inFlight := w.inFlight - {w.loop.mid}, loop := Sleeping)
    case Spawn(id) => w.(tasks := w.tasks[id := Task(w.loop.mid, Running)], loop := Dispatching(w.loop.rest))
    case EndJob(id) =>
      var t := w.tasks[id];
      w.(inFlight := w.inFlight - {t.mid}, tasks := w.tasks[id := t.(stage := Releasing)])
    case ReleasePermit(id) => w.(free := w.free + 1, tasks := w.tasks - {id})
    case Shutdown => w.(loop := Draining)
    case Drained => w.(free := w.free - w.concurrency, loop := Stopped)
  }

  function Exec(w: Worker, steps: seq<Step>): Option<Worker> {
    if steps == [] then Some(w)
    else
      var before, last := Exec(w, steps[..|steps| - 1]), steps[|steps| - 1];
      if before.Some? && Enabled(before.value, last) then Some(Apply(before.value, last)) else None
  }

  function Started(concurrency: nat): Worker {
    Worker(concurrency, {}, concurrency, map[], Sleeping)
  }

  // ---- Invariant ---------------------------------------------------------

  /** The job the loop itself is about to hand to a task. */
  predicate AtHand(w: Worker, mid: string) {
    (w.loop.Acquiring? || w.loop.Spawning?) && w.loop.mid == mid
  }

  predicate HasJob(w: Worker, id: nat, mid: string) {
    id in w.tasks && w.tasks[id] == Task(mid, Running)
  }

  /** Permits the loop itself holds. */
  function Held(w: Worker): nat {
    if w.loop.Spawning? then 1 else if w.loop.Stopped? then w.concurrency else 0
  }

  ghost predicate Inv(w: Worker) {
    && |w.tasks| + w.free + Held(w) == w.concurrency
    && (forall j, k, mid :: HasJob(w, j, mid) && HasJob(w, k, mid) ==> j == k)
    && (forall k, mid :: HasJob(w, k, mid) ==> mid in w.inFlight && !AtHand(w, mid))
    && (forall mid :: mid in w.inFlight ==> AtHand(w, mid) || exists k :: HasJob(w, k, mid))
    && (forall mid :: AtHand(w, mid) ==> mid in w.inFlight)
  }

  lemma TaskCount(tasks: map<nat, Task>, id: nat, t: Task)
    ensures |tasks[id := t]| == |tasks| + if id in tasks then 0 else 1
    ensures id in tasks ==> |tasks - {id}| == |tasks| - 1
  {
    assert tasks[id := t].Keys == tasks.Keys + {id};
    assert (tasks - {id}).Keys == tasks.Keys - {id};
    assert |tasks| == |tasks.Keys|;
    assert |tasks[id := t]| == |tasks[id := t].Keys| && |tasks - {id}| == |(tasks - {id}).Keys|;
  }

  lemma InFlightIsOwned(w: Worker, a: Step, mid: string)
    requires Inv(w) && Enabled(w, a) && mid in Apply(w, a).inFlight
    ensures AtHand(Apply(w, a), mid) || exists k :: HasJob(Apply(w, a), k, mid)
  {
    var v := Apply(w, a);
    if a.Spawn? && AtHand(w, mid) {
      assert HasJob(v, a.id, mid);
    } else if mid in w.inFlight && !AtHand(w, mid) {
      var k :| HasJob(w, k, mid);
      assert HasJob(v, k, mid);
    }
  }

  lemma JobsComeFromSpawns(w: Worker, a: Step, k: nat, mid: string)
    requires Enabled(w, a) && HasJob(Apply(w, a), k, mid)
    ensures (HasJob(w, k, mid) && a != EndJob(k) && a != ReleasePermit(k)) || (a == Spawn(k) && AtHand(w, mid))
  {
  }

  lemma RunningIsGuarded(w: Worker, a: Step, k: nat, mid: string)
    requires Inv(w) && Enabled(w, a) && HasJob(Apply(w, a), k, mid)
    ensures mid in Apply(w, a).inFlight && !AtHand(Apply(w, a), mid)
  {
    JobsComeFromSpawns(w, a, k, mid);
    if a.EndJob? {
      assert HasJob(w, a.id, w.tasks[a.id].mid);
    }
  }

  lemma AtHandIsGuarded(w: Worker, a: Step, mid: string)
    requires Inv(w) && Enabled(w, a) && AtHand(Apply(w, a), mid)
    ensures mid in Apply(w, a).inFlight
  {
    if a.EndJob? {
      assert HasJob(w, a.id, w.tasks[a.id].mid);
    }
  }

  lemma OneJobPerMessage(w: Worker, a: Step, j: nat, k: nat, mid: string)
    requires Inv(w) && Enabled(w, a) && HasJob(Apply(w, a), j, mid) && HasJob(Apply(w, a), k, mid)
    ensures j == k
  {
    JobsComeFromSpawns(w, a, j, mid);
    JobsComeFromSpawns(w, a, k, mid);
  }

  lemma InvStep(w: Worker, a: Step)
    requires Inv(w) && Enabled(w, a)
    ensures Inv(Apply(w, a))
  {
    var v := Apply(w, a);
    if a.Spawn? || a.EndJob? || a.ReleasePermit? {
      TaskCount(w.tasks, a.id, if a.Spawn? then Task(w.loop.mid, Running) else w.tasks[a.id].(stage := Releasing));
    }
    forall mid | mid in v.inFlight ensures AtHand(v, mid) || exists k :: HasJob(v, k, mid) {
      InFlightIsOwned(w, a, mid);
    }
    forall k, mid | HasJob(v, k, mid) ensures mid in v.inFlight && !AtHand(v, mid) {
      RunningIsGuarded(w, a, k, mid);
    }
    forall mid | AtHand(v, mid) ensures mid in v.inFlight {
      AtHandIsGuarded(w, a, mid);
    }
    forall j, k, mid | HasJob(v, j, mid) && HasJob(v, k, mid) ensures j == k {
      OneJobPerMessage(w, a, j, k, mid);
    }
  }

  lemma {:induction false} InvAlways(concurrency: nat, steps: seq<Step>, w: Worker)
    requires Exec(Started(concurrency), steps) == Some(w)
    ensures Inv(w) && w.concurrency == concurrency
  {
    if steps != [] {
      var before := Exec(Started(concurrency), steps[..|steps| - 1]).value;
      InvAlways(concurrency, steps[..|steps| - 1], before);
      InvStep(before, steps[|steps| - 1]);
    }
  }

  // ---- Results -----------------------------------------------------------

  /** In every interleaving of polls and tasks: a message has at most one running task, tasks that
      hold a permit and free permits add up to the concurrency, and a message is in flight exactly
      when a task runs it or the loop is handing it over. */
  lemma DispatchIsSafe(concurrency: nat, steps: seq<Step>, w: Worker)
    requires Exec(Started(concurrency), steps) == Some(w) && !w.loop.Stopped?
    ensures forall j, k, mid :: HasJob(w, j, mid) && HasJob(w, k, mid) ==> j == k
    ensures |w.tasks| + w.free + (if w.loop.Spawning? then 1 else 0) == concurrency
    ensures forall mid :: mid in w.inFlight <==> AtHand(w, mid) || exists k :: HasJob(w, k, mid)
  {
    InvAlways(concurrency, steps, w);
  }

  /** The drain at shutdown completes only when no task is left and nothing is in flight, and it can
      complete as soon as that is so. */
  lemma DrainWaitsForAll(concurrency: nat, steps: seq<Step>, w: Worker)
    requires Exec(Started(concurrency), steps) == Some(w) && w.loop.Draining?
    ensures Enabled(w, Drained) <==> w.tasks == map[]
    ensures w.tasks == map[] ==> w.inFlight == {}
  {
    InvAlways(concurrency, steps, w);
    if |w.tasks| == 0 {
      assert w.tasks == map[];
    }
    if w.tasks == map[] {
      forall mid ensures mid !in w.inFlight {
        assert forall k :: !HasJob(w, k, mid);
      }
    }
  }

  /** No poll ever dispatches a message that a task is still running. */
  lemma RunningIsNeverDispatchedAgain(concurrency: nat, steps: seq<Step>, w: Worker, k: nat, id: nat, mid: string)
    requires Exec(Started(concurrency), steps) == Some(w) && HasJob(w, k, mid)
    requires Enabled(w, Spawn(id))
    ensures w.loop.mid != mid && !HasJob(Apply(w, Spawn(id)), id, mid)
  {
    InvAlways(concurrency, steps, w);
  }

  // ---- The loop ----------------------------------------------------------

  datatype Dispatched = Skipped | Busy | Spawned

  /** The records of a batch whose outcome is a spawn, in batch order. */
  function SpawnedOf(batch: seq<string>, outcomes: seq<Dispatched>): seq<string>
    requires |outcomes| <= |batch|
  {
    if outcomes == [] then []
    else
      var k := |outcomes| - 1;
      SpawnedOf(batch, outcomes[..k]) + if outcomes[k].Spawned? then [batch[k]] else []
  }

  /** Neither in flight already nor repeated, and among as many first records as permits are free. */
  predicate MustSpawn(batch: seq<string>, inFlight: set<string>, free: nat, k: int) {
    0 <= k < |batch| && k < free && batch[k] !in inFlight && batch[k] !in batch[..k]
  }

  /** How far a pass over a batch has come, having started with messages `busy` in flight and `avail`
      free permits. */
  ghost predicate Progress(batch: seq<string>, busy: set<string>, avail: nat,
                           outcomes: seq<Dispatched>, spawned: seq<string>, inFlight: set<string>, free: nat) {
    && |spawned| <= |outcomes| <= |batch| && spawned == SpawnedOf(batch, outcomes)
    && free + |spawned| >= avail
    && (forall mid :: mid in inFlight ==> mid in busy || mid in batch[..|outcomes|])
    && (forall k :: MustSpawn(batch, busy, avail, k) && k < |outcomes| ==> outcomes[k] == Spawned)
  }

  lemma ProgressStep(batch: seq<string>, busy: set<string>, avail: nat,
                     outcomes: seq<Dispatched>, spawned: seq<string>, inFlight: set<string>, free: nat,
                     outcome: Dispatched, inFlight': set<string>, free': nat)
    requires Progress(batch, busy, avail, outcomes, spawned, inFlight, free) && |outcomes| < |batch|
    requires outcome.Skipped? ==> batch[|outcomes|] in inFlight
    requires outcome.Busy? ==> free == 0
    requires free' + (if outcome.Spawned? then 1 else 0) >= free && inFlight' <= inFlight + {batch[|outcomes|]}
    ensures Progress(batch, busy, avail, outcomes + [outcome],
                     spawned + if outcome.Spawned? then [batch[|outcomes|]] else [], inFlight', free')
    ensures outcome.Busy? ==> forall k :: MustSpawn(batch, busy, avail, k) ==> k < |outcomes|
  {
    assert (outcomes + [outcome])[..|outcomes|] == outcomes;
    assert batch[..|outcomes| + 1] == batch[..|outcomes|] + [batch[|outcomes|]];
  }

  /** Tasks with ids from `first` on were spawned for the listed messages, in order. */
  ghost predicate SpawnedFor(tasks: map<nat, Task>, first: nat, spawned: seq<string>) {
    forall id :: id in tasks && id >= first ==> id - first < |spawned| && tasks[id].mid == spawned[id - first]
  }

  /** Tasks end, and at most one new one, with id `next`, has started for `mid`. */
  ghost predicate OnlySpawned(was: map<nat, Task>, tasks: map<nat, Task>, spawned: bool, next: nat, mid: string) {
    forall id :: id in tasks ==>
      (id in was && tasks[id].mid == was[id].mid) || (spawned && id == next && tasks[id].mid == mid)
  }

  lemma SpawnedForStep(was: map<nat, Task>, tasks: map<nat, Task>, first: nat, before: seq<string>,
                       spawned: bool, mid: string)
    requires SpawnedFor(was, first, before) && OnlySpawned(was, tasks, spawned, first + |before|, mid)
    ensures SpawnedFor(tasks, first, before + if spawned then [mid] else [])
  {
  }

  /** The worker's shared state, updated in place. */
  class Dispatcher {
    const concurrency: nat
    var inFlight: set<string>
    var free: nat
    var tasks: map<nat, Task>
    var nextId: nat

    /** The state as seen while the loop is at `loop`. */
    ghost function At(loop: Loop): Worker
      reads this
    {
      Worker(concurrency, inFlight, free, tasks, loop)
    }

    ghost predicate FreshIds()
      reads this
    {
      forall k :: k in tasks ==> k < nextId
    }

    constructor (concurrency: nat)
      ensures At(Sleeping) == Started(concurrency) && FreshIds()
    {
      this.concurrency := concurrency;
      inFlight, free, tasks, nextId := {}, concurrency, map[], 0;
    }

    /** A running task ends: its guard is dropped. */
    method EndTask(id: nat, ghost loop: Loop)
      requires Enabled(At(loop), EndJob(id))
      modifies this
      ensures At(loop) == old(Apply(At(loop), EndJob(id))) && nextId == old(nextId)
      ensures old(FreshIds()) ==> FreshIds()
    {
      inFlight := inFlight - {tasks[id].mid};
      tasks := tasks[id := tasks[id].(stage := Releasing)];
    }

    /** ... and then its permit. */
    method ReturnPermit(id: nat, ghost loop: Loop)
      requires Enabled(At(loop), ReleasePermit(id))
      modifies this
      ensures At(loop) == old(Apply(At(loop), ReleasePermit(id))) && nextId == old(nextId)
      ensures old(FreshIds()) ==> FreshIds()
    {
      tasks := tasks - {id};
      free := free + 1;
    }

    /** Other threads run: any tasks get any distance towards their end. */
    method OthersRun(ghost loop: Loop)
      requires Inv(At(loop)) && FreshIds()
      modifies this
      ensures Inv(At(loop)) && FreshIds() && nextId == old(nextId)
      ensures free >= old(free) && inFlight <= old(inFlight)
      ensures forall k :: k in tasks ==> k in old(tasks) && tasks[k].mid == old(tasks)[k].mid
    {
      for id := 0 to nextId
        invariant Inv(At(loop)) && FreshIds() && nextId == old(nextId)
        invariant free >= old(free) && inFlight <= old(inFlight)
        invariant forall k :: k in tasks ==> k in old(tasks) && tasks[k].mid == old(tasks)[k].mid
      {
        if * {
          if id in tasks && tasks[id].stage.Running? {
            InvStep(At(loop), EndJob(id));
            EndTask(id, loop);
          }
        }
        if * {
          if id in tasks && tasks[id].stage.Releasing? {
            InvStep(At(loop), ReleasePermit(id));
            ReturnPermit(id, loop);
          }
        }
      }
    }

    /** `in_flight.insert(mid)` */
    method EnterFlight(mid: string, ghost rest: seq<string>) returns (entered: bool)
      requires Inv(At(Dispatching([mid] + rest)))
      modifies this`inFlight
      ensures entered <==> mid !in old(inFlight)
      ensures inFlight == old(inFlight) + {mid}
      ensures Inv(At(if entered then Acquiring(mid, rest) else Dispatching(rest)))
      ensures At(if entered then Acquiring(mid, rest) else Dispatching(rest))
           == old(Apply(At(Dispatching([mid] + rest)), NextRecord))
    {
      assert ([mid] + rest)[1..] == rest;
      InvStep(At(Dispatching([mid] + rest)), NextRecord);
      entered := mid !in inFlight;
      if entered {
        inFlight := inFlight + {mid};
      }
    }

    /** `try_acquire_owned()`; without a permit the message leaves the in-flight set again. */
    method TakePermit(mid: string, ghost rest: seq<string>) returns (taken: bool)
      requires Inv(At(Acquiring(mid, rest)))
      modifies this`inFlight, this`free
      ensures taken <==> old(free) > 0
      ensures inFlight == old(inFlight) - (if taken then {} else {mid}) && free + (if taken then 1 else 0) == old(free)
      ensures Inv(At(if taken then Spawning(mid, rest) else Sleeping))
      ensures At(if taken then Spawning(mid, rest) else Sleeping) == old(Apply(At(Acquiring(mid, rest)), TryAcquire))
    {
      InvStep(At(Acquiring(mid, rest)), TryAcquire);
      taken := free > 0;
      if taken {
        free := free - 1;
      } else {
        inFlight := inFlight - {mid};
      }
    }

    /** `tokio::spawn`, with permit and guard moved into the task. */
    method SpawnTask(mid: string, ghost rest: seq<string>)
      requires Inv(At(Spawning(mid, rest))) && FreshIds()
      modifies this`tasks, this`nextId
      ensures Inv(At(Dispatching(rest))) && FreshIds()
      ensures At(Dispatching(rest)) == old(Apply(At(Spawning(mid, rest)), Spawn(nextId)))
      ensures tasks == old(tasks)[old(nextId) := Task(mid, Running)] && nextId == old(nextId) + 1
    {
      InvStep(At(Spawning(mid, rest)), Spawn(nextId));
      tasks := tasks[nextId := Task(mid, Running)];
      nextId := nextId + 1;
    }

    /** One record of a batch: skipped while in flight, refused without a free permit, else spawned
        as task `nextId`. A record that is not in flight is spawned whenever a permit is free. */
    method DispatchRecord(batch: seq<string>, k: nat) returns (outcome: Dispatched)
      requires k < |batch| && Inv(At(Dispatching(batch[k..]))) && FreshIds()
      modifies this
      ensures Inv(At(if outcome.Busy? then Sleeping else Dispatching(batch[k + 1..]))) && FreshIds()
      ensures nextId == old(nextId) + if outcome.Spawned? then 1 else 0
      ensures OnlySpawned(old(tasks), tasks, outcome.Spawned?, old(nextId), batch[k])
      ensures outcome.Spawned? ==> old(nextId) in tasks && tasks[old(nextId)] == Task(batch[k], Running)
      ensures outcome.Skipped? ==> batch[k] in old(inFlight)
      ensures outcome.Busy? ==> old(free) == 0
      ensures free + (if outcome.Spawned? then 1 else 0) >= old(free)
      ensures inFlight <= old(inFlight) + {batch[k]}
    {
      var mid := batch[k];
      ghost var rest := batch[k + 1..];
      assert batch[k..] == [mid] + rest;
      OthersRun(Dispatching([mid] + rest));
      var entered := EnterFlight(mid, rest);
      if !entered {
        return Skipped;
      }
      OthersRun(Acquiring(mid, rest));
      var taken := TakePermit(mid, rest);
      if !taken {
        return Busy;
      }
      SpawnTask(mid, rest);
      outcome := Spawned;
    }

    /** One pass of the loop over a batch, and the account of it. */
    method DispatchNext(batch: seq<string>, ghost busy: set<string>, ghost avail: nat, ghost first: nat,
                        outcomes: seq<Dispatched>, spawned: seq<string>)
      returns (outcomes': seq<Dispatched>, spawned': seq<string>)
      requires |outcomes| < |batch| && Inv(At(Dispatching(batch[|outcomes|..]))) && FreshIds()
      requires Progress(batch, busy, avail, outcomes, spawned, inFlight, free)
      requires SpawnedFor(tasks, first, spawned) && nextId == first + |spawned|
      modifies this
      ensures |outcomes'| == |outcomes| + 1
      ensures Inv(At(if outcomes'[|outcomes|].Busy? then Sleeping else Dispatching(batch[|outcomes'|..]))) && FreshIds()
      ensures Progress(batch, busy, avail, outcomes', spawned', inFlight, free)
      ensures SpawnedFor(tasks, first, spawned') && nextId == first + |spawned'|
      ensures outcomes'[|outcomes|].Busy? ==> forall k :: MustSpawn(batch, busy, avail, k) ==> k < |outcomes|
    {
      var mid := batch[|outcomes|];
      var outcome := DispatchRecord(batch, |outcomes|);
      outcomes', spawned' := outcomes + [outcome], spawned + if outcome.Spawned? then [mid] else [];
      ProgressStep(batch, busy, avail, outcomes, spawned, old(inFlight), old(free), outcome, inFlight, free);
      SpawnedForStep(old(tasks), tasks, first, spawned, outcome.Spawned?, mid);
    }

    /** The poll loop over one batch: stops at the first record without a free permit. Tasks may end
        anywhere in between. Ids from the old `nextId` on belong to the tasks spawned here: those
        records of the batch, in batch order, whose outcome is a spawn. As many first records as
        permits were free are spawned unless they are in flight already or repeated. */
    method DispatchBatch(batch: seq<string>) returns (spawned: seq<string>, outcomes: seq<Dispatched>)
      requires Inv(At(Sleeping)) && FreshIds()
      modifies this
      ensures Inv(At(Sleeping)) && FreshIds()
      ensures |outcomes| <= |batch| && spawned == SpawnedOf(batch, outcomes)
      ensures |outcomes| < |batch| ==> |outcomes| > 0 && outcomes[|outcomes| - 1] == Busy
      ensures nextId == old(nextId) + |spawned|
      ensures SpawnedFor(tasks, old(nextId), spawned)
      ensures forall k :: MustSpawn(batch, old(inFlight), old(free), k) ==> k < |outcomes| && outcomes[k] == Spawned
    {
      ghost var busy, avail, first := inFlight, free, nextId;
      spawned, outcomes := [], [];
      InvStep(At(Sleeping), Fetch(batch));
      assert batch[0..] == batch;
      while |outcomes| < |batch|
        invariant |outcomes| <= |batch|
        invariant Inv(At(Dispatching(batch[|outcomes|..]))) && FreshIds()
        invariant Progress(batch, busy, avail, outcomes, spawned, inFlight, free)
        invariant SpawnedFor(tasks, first, spawned) && nextId == first + |spawned|
      {
        outcomes, spawned := DispatchNext(batch, busy, avail, first, outcomes, spawned);
        if outcomes[|outcomes| - 1].Busy? {
          return;
        }
      }
      InvStep(At(Dispatching(batch[|outcomes|..])), NextRecord);
    }
  }
}
