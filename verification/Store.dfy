/** The per-node store: crates/nostr-q-store/src/store.rs. Every method holds the connection
    mutex, so each one is a single atomic update of the tables. */
module MessageStore {
  import opened Base
  import opened Rows

  datatype Record = Record(mid: string, queue: string, eventId: nat, traceId: string,
                           envelope: string, idem: Option<string>, createdAt: int,
                           replyTo: Option<string>, consumer: Option<string>, row: Row)

  datatype DlqEntry = DlqEntry(queue: string, reason: string, attempts: nat)

  datatype StoreResult<+T> = Ok(value: T) | UnknownMid

  type Messages = map<string, Record>

  predicate SameIdem(a: Record, b: Record) {
    a.queue == b.queue && a.idem.Some? && a.idem == b.idem
  }

  /** The constraints `INSERT OR IGNORE` runs into: primary key, unique event id, unique (queue, idem). */
  predicate Conflicts(m: Messages, rec: Record) {
    rec.mid in m || exists k :: k in m && (m[k].eventId == rec.eventId || SameIdem(m[k], rec))
  }

  /** Rows are filed under their own id and satisfy the table's unique indexes. */
  ghost predicate Consistent(m: Messages) {
    && (forall k :: k in m ==> m[k].mid == k)
    && (forall j, k :: j in m && k in m && m[j].eventId == m[k].eventId ==> j == k)
    && (forall j, k :: j in m && k in m && SameIdem(m[j], m[k]) ==> j == k)
  }

  /** `INSERT OR IGNORE` */
  function Inserted(m: Messages, rec: Record): Messages {
    if Conflicts(m, rec) then m else m[rec.mid := rec]
  }

  /** Update the scheduling columns of one row; everything else in the table stays put. */
  function WithRow(m: Messages, mid: string, row: Row): Messages
    requires mid in m
  {
    m[mid := m[mid].(row := row)]
  }

  function SweptTable(m: Messages, queue: string, now: int): Messages {
    map k | k in m :: if m[k].queue == queue then m[k].(row := Swept(m[k].row, now)) else m[k]
  }

  ghost predicate Selectable(m: Messages, queue: string, now: int, k: string) {
    k in m && m[k].queue == queue && Claimable(m[k].row, now)
  }

  /** A batch leaves out a selectable row only when it is full of rows that are no younger. */
  lemma LeftOutIsYounger(m: Messages, queue: string, now: int, limit: nat, batch: seq<Record>, k: string)
    requires Consistent(m) && IsBatch(m, queue, now, limit, batch) && Selectable(m, queue, now, k)
    ensures m[k] in batch || (|batch| == limit && forall rec :: rec in batch ==> rec.createdAt <= m[k].createdAt)
  {
    if Picked(batch, k) {
      var i :| 0 <= i < |batch| && batch[i].mid == k;
      assert batch[i] == m[k];
    }
  }

  ghost predicate Picked(batch: seq<Record>, k: string) {
    exists i :: 0 <= i < |batch| && batch[i].mid == k
  }

  lemma PickedSnoc(batch: seq<Record>, rec: Record, k: string)
    ensures Picked(batch + [rec], k) <==> Picked(batch, k) || rec.mid == k
  {
    var longer := batch + [rec];
    assert longer[|batch|] == rec;
    assert forall i :: 0 <= i < |batch| ==> longer[i] == batch[i];
  }

  /** `ORDER BY created_at ASC LIMIT limit` over the claimable rows of `queue`. */
  ghost predicate IsBatch(m: Messages, queue: string, now: int, limit: nat, batch: seq<Record>) {
    && (forall i :: 0 <= i < |batch| ==> Selectable(m, queue, now, batch[i].mid) && m[batch[i].mid] == batch[i])
    && (forall i, j :: 0 <= i < j < |batch| ==>
          batch[i].mid != batch[j].mid && batch[i].createdAt <= batch[j].createdAt)
    && |batch| <= limit
    && (forall k :: Selectable(m, queue, now, k) && !Picked(batch, k) ==>
          |batch| == limit && forall i :: 0 <= i < |batch| ==> batch[i].createdAt <= m[k].createdAt)
  }

  /** A batch under construction: it holds claimable rows, oldest first, none younger than a row
      still in `left`, and `left` is every other claimable row. */
  ghost predicate OldestFirst(m: Messages, queue: string, now: int, batch: seq<Record>, left: set<string>) {
    && (forall k :: k in left <==> Selectable(m, queue, now, k) && !Picked(batch, k))
    && (forall i :: 0 <= i < |batch| ==> Selectable(m, queue, now, batch[i].mid) && m[batch[i].mid] == batch[i])
    && (forall i, k :: 0 <= i < |batch| && k in left ==> batch[i].createdAt <= m[k].createdAt)
    && (forall i, j :: 0 <= i < j < |batch| ==>
          batch[i].mid != batch[j].mid && batch[i].createdAt <= batch[j].createdAt)
  }

  lemma TakeOldest(m: Messages, queue: string, now: int, batch: seq<Record>, left: set<string>, oldest: string)
    requires Consistent(m) && OldestFirst(m, queue, now, batch, left)
    requires oldest in left && forall k :: k in left ==> m[oldest].createdAt <= m[k].createdAt
    ensures OldestFirst(m, queue, now, batch + [m[oldest]], left - {oldest})
  {
    assert forall i :: 0 <= i < |batch| ==> batch[i].mid != oldest;
    forall k ensures Picked(batch + [m[oldest]], k) <==> Picked(batch, k) || oldest == k {
      PickedSnoc(batch, m[oldest], k);
    }
  }

  class Store {
    var messages: Messages
    var dlq: map<string, DlqEntry>

    ghost predicate Valid()
      reads this
    {
      Consistent(messages)
    }

    constructor ()
      ensures Valid() && messages == map[] && dlq == map[]
    {
      messages, dlq := map[], map[];
    }

    method InsertMessage(rec: Record) returns (inserted: bool)
      requires Valid()
      modifies this`messages
      ensures Valid()
      ensures inserted <==> && rec.mid !in old(messages)
                            && (forall k :: k in old(messages) ==> old(messages)[k].eventId != rec.eventId)
                            && (rec.idem.Some? ==> forall k :: k in old(messages) && old(messages)[k].queue == rec.queue
                                                               ==> old(messages)[k].idem != rec.idem)
      ensures messages == if inserted then old(messages)[rec.mid := rec] else old(messages)
      ensures messages == old(Inserted(messages, rec))
    {
      inserted := !Conflicts(messages, rec);
      if inserted {
        messages := messages[rec.mid := rec];
      }
    }

    method GetMessage(mid: string) returns (found: Option<Record>)
      requires Valid()
      ensures found == if mid in messages then Some(messages[mid]) else None
      ensures found.Some? ==> found.value.mid == mid
    {
      found := if mid in messages then Some(messages[mid]) else None;
    }

    /** At most one row can match, so the answer does not depend on the scan order. */
    method FindByIdem(queue: string, idem: string) returns (found: Option<Record>)
      requires Valid()
      ensures found.Some? ==> found.value.mid in messages && messages[found.value.mid] == found.value
                              && found.value.queue == queue && found.value.idem == Some(idem)
      ensures found.None? ==> forall k :: k in messages ==>
                                !(messages[k].queue == queue && messages[k].idem == Some(idem))
    {
      if k :| k in messages && messages[k].queue == queue && messages[k].idem == Some(idem) {
        found := Some(messages[k]);
      } else {
        found := None;
      }
    }

    /** A row of the queue is selectable when it is unexpired and either pending and visible, or claimed
        under a lease that has run out. The batch holds selectable rows, distinct and oldest first; a
        selectable row is left out only when the batch is full of rows that are no younger. */
    method Claimable(queue: string, now: int, limit: nat) returns (batch: seq<Record>)
      requires Valid()
      ensures |batch| <= limit
      ensures forall i, j :: 0 <= i < j < |batch| ==>
                batch[i].mid != batch[j].mid && batch[i].createdAt <= batch[j].createdAt
      ensures forall rec :: rec in batch ==>
                && rec.mid in messages && messages[rec.mid] == rec && rec.queue == queue
                && (rec.row.expiresAt.Some? ==> rec.row.expiresAt.value > now)
                && ( || (rec.row.status == Pending && rec.row.visibleAt <= now)
                     || (rec.row.status == Claimed && rec.row.lease.Some? && rec.row.lease.value <= now))
      ensures forall k :: (&& k in messages && messages[k].queue == queue
                           && (messages[k].row.expiresAt.Some? ==> messages[k].row.expiresAt.value > now)
                           && ( || (messages[k].row.status == Pending && messages[k].row.visibleAt <= now)
                                || (messages[k].row.status == Claimed && messages[k].row.lease.Some?
                                    && messages[k].row.lease.value <= now))) ==>
                messages[k] in batch
                || (|batch| == limit && forall rec :: rec in batch ==> rec.createdAt <= messages[k].createdAt)
    {
      batch := [];
      var left := set k | k in messages && messages[k].queue == queue && Rows.Claimable(messages[k].row, now);
      while left != {} && |batch| < limit
        invariant |batch| <= limit && OldestFirst(messages, queue, now, batch, left)
        decreases left
      {
        var oldest := Oldest(messages, left);
        TakeOldest(messages, queue, now, batch, left, oldest);
        batch := batch + [messages[oldest]];
        left := left - {oldest};
      }
      assert IsBatch(messages, queue, now, limit, batch);
      forall k | Selectable(messages, queue, now, k)
        ensures messages[k] in batch
                || (|batch| == limit && forall rec :: rec in batch ==> rec.createdAt <= messages[k].createdAt)
      {
        LeftOutIsYounger(messages, queue, now, limit, batch, k);
      }
    }

    method MarkClaimed(mid: string, consumer: string, leaseExp: int, attempt: nat) returns (r: StoreResult<()>)
      requires Valid()
      modifies this`messages
      ensures Valid()
      ensures r.Ok? <==> mid in old(messages)
      ensures messages == if mid in old(messages)
                          then var rec := old(messages)[mid];
                               var healed := if rec.row.attempts < attempt then attempt else rec.row.attempts;
                               var row := rec.row.(status := Claimed, lease := Some(leaseExp), attempts := healed);
                               old(messages)[mid := rec.(consumer := Some(consumer), row := row)]
                          else old(messages)
    {
      if mid !in messages { return UnknownMid; }
      var rec := messages[mid];
      var row := Rows.MarkClaimed(rec.row, leaseExp, attempt);
      messages := messages[mid := rec.(consumer := Some(consumer), row := row)];
      r := Ok(());
    }

    method MarkAcked(mid: string) returns (r: StoreResult<()>)
      requires Valid()
      modifies this`messages
      ensures Valid()
      ensures r.Ok? <==> mid in old(messages)
      ensures messages == if mid in old(messages)
                          then var rec := old(messages)[mid];
                               old(messages)[mid := rec.(row := rec.row.(status := Acked, lease := None))]
                          else old(messages)
    {
      if mid !in messages { return UnknownMid; }
      messages := WithRow(messages, mid, Rows.MarkAcked(messages[mid].row));
      r := Ok(());
    }

    method MarkPending(mid: string, visibleAt: int) returns (r: StoreResult<()>)
      requires Valid()
      modifies this`messages
      ensures Valid()
      ensures r.Ok? <==> mid in old(messages)
      ensures messages == if mid in old(messages)
                          then var rec := old(messages)[mid];
                               var row := rec.row.(status := Pending, lease := None, visibleAt := visibleAt);
                               old(messages)[mid := rec.(row := row)]
                          else old(messages)
    {
      if mid !in messages { return UnknownMid; }
      messages := WithRow(messages, mid, Rows.MarkPending(messages[mid].row, visibleAt));
      r := Ok(());
    }

    method IncrAttempts(mid: string) returns (r: StoreResult<nat>)
      requires Valid()
      modifies this`messages
      ensures Valid()
      ensures r.Ok? <==> mid in old(messages)
      ensures r.Ok? ==> var rec := old(messages)[mid];
                        && r.value == rec.row.attempts + 1
                        && messages == old(messages)[mid := rec.(row := rec.row.(attempts := rec.row.attempts + 1))]
      ensures r.UnknownMid? ==> messages == old(messages)
    {
      if mid !in messages { return UnknownMid; }
      messages := WithRow(messages, mid, Rows.IncrAttempts(messages[mid].row));
      r := Ok(messages[mid].row.attempts);
    }

    method MoveToDlq(mid: string, reason: string) returns (r: StoreResult<()>)
      requires Valid()
      modifies this`messages, this`dlq
      ensures Valid()
      ensures r.Ok? <==> mid in old(messages)
      ensures r.Ok? ==> var rec := old(messages)[mid];
                        && messages == old(messages)[mid := rec.(row := rec.row.(status := Dead, lease := None))]
                        && dlq == old(dlq)[mid := DlqEntry(rec.queue, reason, rec.row.attempts)]
      ensures r.UnknownMid? ==> messages == old(messages) && dlq == old(dlq)
    {
      if mid !in messages { return UnknownMid; }
      messages := WithRow(messages, mid, MarkDead(messages[mid].row));
      dlq := dlq[mid := DlqEntry(messages[mid].queue, reason, messages[mid].row.attempts)];
      r := Ok(());
    }

    method MoveToDlqAt(mid: string, reason: string, attempt: nat) returns (r: StoreResult<()>)
      requires Valid()
      modifies this`messages, this`dlq
      ensures Valid()
      ensures r.Ok? <==> mid in old(messages)
      ensures r.Ok? ==> var rec := old(messages)[mid];
                        var healed := if rec.row.attempts < attempt then attempt else rec.row.attempts;
                        var row := rec.row.(status := Dead, lease := None, attempts := healed);
                        && messages == old(messages)[mid := rec.(row := row)]
                        && dlq == old(dlq)[mid := DlqEntry(rec.queue, reason, healed)]
      ensures r.UnknownMid? ==> messages == old(messages) && dlq == old(dlq)
    {
      if mid !in messages { return UnknownMid; }
      messages := WithRow(messages, mid, MarkDeadAt(messages[mid].row, attempt));
      dlq := dlq[mid := DlqEntry(messages[mid].queue, reason, messages[mid].row.attempts)];
      r := Ok(());
    }

    method DlqRetry(mid: string) returns (r: StoreResult<()>)
      requires Valid()
      modifies this`messages, this`dlq
      ensures Valid()
      ensures r.Ok? <==> mid in old(messages)
      ensures r.Ok? ==> var rec := old(messages)[mid];
                        var reset := rec.row.(status := Pending, visibleAt := 0, lease := None);
                        var row := reset.(floor := rec.row.attempts);
                        && messages == old(messages)[mid := rec.(row := row)]
                        && dlq == old(dlq) - {mid}
      ensures r.UnknownMid? ==> messages == old(messages) && dlq == old(dlq)
    {
      if mid !in messages { return UnknownMid; }
      messages := WithRow(messages, mid, Retried(messages[mid].row));
      dlq := dlq - {mid};
      r := Ok(());
    }

    /** Expires the pending and claimed rows of the queue whose expiry has come, and returns exactly
        those; no other row, no other column and not the DLQ is touched. */
    method ExpireDue(queue: string, now: int) returns (mids: set<string>)
      requires Valid()
      modifies this`messages
      ensures Valid()
      ensures forall k :: k in mids <==>
                && k in old(messages) && old(messages)[k].queue == queue
                && (old(messages)[k].row.status == Pending || old(messages)[k].row.status == Claimed)
                && old(messages)[k].row.expiresAt.Some? && old(messages)[k].row.expiresAt.value <= now
      ensures messages.Keys == old(messages).Keys
      ensures forall k :: k in messages ==>
                var rec := old(messages)[k];
                messages[k] == if k in mids then rec.(row := rec.row.(status := Expired, lease := None)) else rec
      ensures messages == old(SweptTable(messages, queue, now))
    {
      mids := set k | k in messages && messages[k].queue == queue && Due(messages[k].row, now);
      if mids != {} {
        messages := SweptTable(messages, queue, now);
      } else {
        forall k | k in messages ensures SweptTable(messages, queue, now)[k] == messages[k] {
          assert k !in mids;
        }
        assert messages == SweptTable(messages, queue, now);
      }
    }
  }

  method Oldest(m: Messages, keys: set<string>) returns (oldest: string)
    requires keys != {} && forall k :: k in keys ==> k in m
    ensures oldest in keys && forall k :: k in keys ==> m[oldest].createdAt <= m[k].createdAt
  {
    oldest :| oldest in keys;
    var rest := keys - {oldest};
    while rest != {}
      invariant rest <= keys && oldest in keys
      invariant forall k :: k in keys - rest ==> m[oldest].createdAt <= m[k].createdAt
      decreases rest
    {
      var k :| k in rest;
      if m[k].createdAt < m[oldest].createdAt {
        oldest := k;
      }
      rest := rest - {k};
    }
  }

  /** Polling after a sweep selects from exactly the same rows as polling without it. */
  lemma SweepKeepsSelection(m: Messages, queue: string, swept: string, sweepAt: int, now: int, k: string)
    requires sweepAt <= now
    ensures Selectable(SweptTable(m, swept, sweepAt), queue, now, k) <==> Selectable(m, queue, now, k)
  {
    if k in m {
      SweepNeverChangesClaimable(m[k].row, sweepAt, now);
    }
  }
}
