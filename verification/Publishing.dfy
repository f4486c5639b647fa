/** Idempotent publish on one node: crates/nostr-q/src/lib.rs:114-198 and 638-693 over the unique
    indexes of crates/nostr-q-store/src/store.rs:25-44 and 254-283. Publishing tasks and the ingest
    task share the store; the pre-check, the relay publish and the insert are separate steps. */
module Publishing {
  import opened Base
  import opened Rows
  import opened MessageStore
  import opened Wire
  import ClaimProtocol

  datatype Receipt = Receipt(mid: string, traceId: string, eventId: nat)

  function ReceiptOf(rec: Record): Receipt {
    Receipt(rec.mid, rec.traceId, rec.eventId)
  }

  /** A publish call: submitted, record built after the pre-check found nothing, event landed on the
      relay, and finally a receipt or an error. */
  datatype Task =
    | Submitted(queue: string, idem: Option<string>)
    | Built(rec: Record)
    | Landed(rec: Record)
    | Returned(queue: string, idem: Option<string>, receipt: Receipt)
    | Refused(rec: Record)

  /** `minted` remembers every record built by a publish call on this node. */
  datatype State = State(messages: Messages, tasks: seq<Task>, minted: set<Record>)

  datatype Step =
    | Submit(queue: string, idem: Option<string>)
    | PreCheck(k: nat, rec: Record)
    | Land(k: nat)
    | Insert(k: nat)
    | Ingest(rec: Record)
    | Reschedule(mid: string, row: Row)

  predicate HasKey(rec: Record, queue: string, idem: string) {
    rec.queue == queue && rec.idem == Some(idem)
  }

  ghost function Find(m: Messages, queue: string, idem: Option<string>): Option<Record> {
    if idem.Some? && exists k :: k in m && HasKey(m[k], queue, idem.value)
    then var k :| k in m && HasKey(m[k], queue, idem.value); Some(m[k])
    else None
  }

  /** Ids are unique: a newly built record shares its mid and event id with nothing seen before. */
  ghost predicate FreshRecord(s: State, rec: Record) {
    && (forall k :: k in s.messages ==> k != rec.mid && s.messages[k].eventId != rec.eventId)
    && (forall m :: m in s.minted ==> m.mid != rec.mid && m.eventId != rec.eventId)
  }

  /** A signed event cannot be altered: whatever carries the mid or event id of a record of ours is
      an echo of it. */
  ghost predicate EchoOf(rec: Record, m: Record) {
    && rec.mid == m.mid && rec.eventId == m.eventId && rec.traceId == m.traceId
    && rec.queue == m.queue && rec.idem == m.idem
  }

  ghost predicate Authentic(s: State, rec: Record) {
    forall m :: m in s.minted && (rec.mid == m.mid || rec.eventId == m.eventId) ==> EchoOf(rec, m)
  }

  ghost predicate Enabled(s: State, a: Step) {
    match a
    case Submit(_, _) => true
    case PreCheck(k, rec) =>
      && k < |s.tasks| && s.tasks[k].Submitted?
      && FreshRecord(s, rec) && rec.queue == s.tasks[k].queue && rec.idem == s.tasks[k].idem
    case Land(k) => k < |s.tasks| && s.tasks[k].Built?
    case Insert(k) => k < |s.tasks| && s.tasks[k].Landed?
    case Ingest(rec) => Authentic(s, rec)
    case Reschedule(mid, _) => mid in s.messages
  }

  /** The receipt decision after `INSERT OR IGNORE`. */
  ghost function AfterInsert(m: Messages, rec: Record): Task {
    if !Conflicts(m, rec) then Returned(rec.queue, rec.idem, ReceiptOf(rec))
    else
      var existing := Find(m, rec.queue, rec.idem);
      if existing.Some? then Returned(rec.queue, rec.idem, ReceiptOf(existing.value)) else Refused(rec)
  }

  ghost function Apply(s: State, a: Step): State
    requires Enabled(s, a)
  {
    match a
    case Submit(queue, idem) => s.(tasks := s.tasks + [Submitted(queue, idem)])
    case PreCheck(k, rec) =>
      var existing := Find(s.messages, rec.queue, rec.idem);
      if existing.Some? then s.(tasks := s.tasks[k := Returned(rec.queue, rec.idem, ReceiptOf(existing.value))])
      else s.(tasks := s.tasks[k := Built(rec)], minted := s.minted + {rec})
    case Land(k) => s.(tasks := s.tasks[k := Landed(s.tasks[k].rec)])
    case Insert(k) =>
      var rec := s.tasks[k].rec;
      s.(messages := Inserted(s.messages, rec), tasks := s.tasks[k := AfterInsert(s.messages, rec)])
    case Ingest(rec) => s.(messages := Inserted(s.messages, rec))
    case Reschedule(mid, row) => s.(messages := WithRow(s.messages, mid, row))
  }

  ghost function Exec(s: State, steps: seq<Step>): Option<State> {
    if steps == [] then Some(s)
    else
      var before, last := Exec(s, steps[..|steps| - 1]), steps[|steps| - 1];
      if before.Some? && Enabled(before.value, last) then Some(Apply(before.value, last)) else None
  }

  const START := State(map[], [], {})

  // ---- Invariant ---------------------------------------------------------

  /** The receipt names a stored row of the key it was asked for. */
  ghost predicate Names(m: Messages, queue: string, idem: Option<string>, r: Receipt) {
    r.mid in m && ReceiptOf(m[r.mid]) == r && m[r.mid].queue == queue && m[r.mid].idem == idem
  }

  ghost predicate TaskInv(s: State, t: Task) {
    match t
    case Submitted(_, _) => true
    case Built(rec) => rec in s.minted
    case Landed(rec) => rec in s.minted
    case Returned(queue, idem, r) => Names(s.messages, queue, idem, r)
    case Refused(rec) => rec.idem.None? && Names(s.messages, rec.queue, None, ReceiptOf(rec))
  }

  ghost predicate Inv(s: State) {
    && Consistent(s.messages)
    && (forall m, m' :: m in s.minted && m' in s.minted && (m.mid == m'.mid || m.eventId == m'.eventId) ==> m == m')
    && (forall k :: k in s.messages ==> Authentic(s, s.messages[k]))
    && (forall k :: 0 <= k < |s.tasks| ==> TaskInv(s, s.tasks[k]))
  }

  lemma NamesStays(s: State, a: Step, queue: string, idem: Option<string>, r: Receipt)
    requires Inv(s) && Enabled(s, a) && Names(s.messages, queue, idem, r)
    ensures Names(Apply(s, a).messages, queue, idem, r)
  {
  }

  lemma FoundIsNamed(m: Messages, queue: string, idem: Option<string>)
    requires Consistent(m)
    ensures var f := Find(m, queue, idem);
            f.Some? ==> Names(m, queue, idem, ReceiptOf(f.value))
  {
  }

  /** A publish sends nothing exactly when it has a key that a stored row carries already; it is then
      answered at once with that row's receipt. */
  lemma PreCheckOutcome(s: State, k: nat, rec: Record)
    requires Inv(s) && Enabled(s, PreCheck(k, rec))
    ensures var t, m := Apply(s, PreCheck(k, rec)), s.messages;
            && t.messages == m
            && (t.tasks[k].Returned?
                <==> rec.idem.Some? && exists j :: j in m && m[j].queue == rec.queue && m[j].idem == rec.idem)
            && (t.tasks[k].Returned? ==>
                  && t.minted == s.minted
                  && forall j :: j in m && m[j].queue == rec.queue && m[j].idem == rec.idem ==>
                       t.tasks[k].receipt == Receipt(m[j].mid, m[j].traceId, m[j].eventId))
            && (!t.tasks[k].Returned? ==> t.tasks[k] == Built(rec) && rec in t.minted)
  {
    if rec.idem.Some? {
      forall j | j in s.messages && s.messages[j].queue == rec.queue && s.messages[j].idem == rec.idem
        ensures HasKey(s.messages[j], rec.queue, rec.idem.value)
        ensures Find(s.messages, rec.queue, rec.idem) == Some(s.messages[j])
      {
        var found := Find(s.messages, rec.queue, rec.idem).value;
        assert SameIdem(found, s.messages[j]);
      }
    }
  }

  /** A publish is refused exactly when it has no idempotency key and its own echo was ingested
      before its insert; a keyed publish always gets a receipt. */
  lemma InsertOutcome(s: State, k: nat)
    requires Inv(s) && Enabled(s, Insert(k))
    ensures var rec := s.tasks[k].rec;
            && (AfterInsert(s.messages, rec).Refused? <==> rec.idem.None? && rec.mid in s.messages)
            && TaskInv(Apply(s, Insert(k)), AfterInsert(s.messages, rec))
  {
    var rec := s.tasks[k].rec;
    assert TaskInv(s, s.tasks[k]);
    FoundIsNamed(s.messages, rec.queue, rec.idem);
    if Conflicts(s.messages, rec) {
      if rec.mid in s.messages {
        assert Authentic(s, s.messages[rec.mid]) && EchoOf(s.messages[rec.mid], rec);
        assert rec.idem.Some? ==> HasKey(s.messages[rec.mid], rec.queue, rec.idem.value);
      } else {
        var j :| j in s.messages && (s.messages[j].eventId == rec.eventId || SameIdem(s.messages[j], rec));
        assert Authentic(s, s.messages[j]);
        assert HasKey(s.messages[j], rec.queue, rec.idem.value);
      }
      if AfterInsert(s.messages, rec).Returned? {
        NamesStays(s, Insert(k), rec.queue, rec.idem, AfterInsert(s.messages, rec).receipt);
      }
    } else {
      assert Inserted(s.messages, rec) == s.messages[rec.mid := rec];
    }
  }

  lemma InsertedStaysConsistent(m: Messages, rec: Record)
    requires Consistent(m)
    ensures Consistent(Inserted(m, rec))
  {
  }

  lemma ConsistentStep(s: State, a: Step)
    requires Inv(s) && Enabled(s, a)
    ensures Consistent(Apply(s, a).messages)
  {
    match a
    case Insert(k) => InsertedStaysConsistent(s.messages, s.tasks[k].rec);
    case Ingest(rec) => InsertedStaysConsistent(s.messages, rec);
    case _ =>
  }

  /** Minted records are told apart by either of their ids. */
  lemma MintedIsAuthentic(s: State, rec: Record)
    requires Inv(s) && rec in s.minted
    ensures Authentic(s, rec)
  {
  }

  lemma AuthenticStep(s: State, a: Step, k: string)
    requires Inv(s) && Enabled(s, a) && k in Apply(s, a).messages
    ensures Authentic(Apply(s, a), Apply(s, a).messages[k])
  {
    if k in s.messages {
      assert Authentic(s, s.messages[k]);
    } else if a.Insert? {
      assert TaskInv(s, s.tasks[a.k]);
      MintedIsAuthentic(s, s.tasks[a.k].rec);
    }
  }

  lemma TaskStep(s: State, a: Step, k: nat)
    requires Inv(s) && Enabled(s, a) && k < |Apply(s, a).tasks|
    ensures TaskInv(Apply(s, a), Apply(s, a).tasks[k])
  {
    if a.Insert? && a.k == k {
      InsertOutcome(s, k);
    } else if a.PreCheck? && a.k == k {
      FoundIsNamed(s.messages, a.rec.queue, a.rec.idem);
    } else if k < |s.tasks| {
      assert TaskInv(s, s.tasks[k]);
      match s.tasks[k]
      case Returned(queue, idem, receipt) => NamesStays(s, a, queue, idem, receipt);
      case Refused(rec) => NamesStays(s, a, rec.queue, None, ReceiptOf(rec));
      case _ =>
    }
  }

  lemma InvStep(s: State, a: Step)
    requires Inv(s) && Enabled(s, a)
    ensures Inv(Apply(s, a))
  {
    var t := Apply(s, a);
    ConsistentStep(s, a);
    forall k | k in t.messages ensures Authentic(t, t.messages[k]) {
      AuthenticStep(s, a, k);
    }
    forall k | 0 <= k < |t.tasks| ensures TaskInv(t, t.tasks[k]) {
      TaskStep(s, a, k);
    }
  }

  lemma {:induction false} InvAlways(steps: seq<Step>, t: State)
    requires Exec(START, steps) == Some(t)
    ensures Inv(t)
  {
    if steps != [] {
      var s := Exec(START, steps[..|steps| - 1]).value;
      InvAlways(steps[..|steps| - 1], s);
      InvStep(s, steps[|steps| - 1]);
    }
  }

  // ---- Results -----------------------------------------------------------

  predicate ReceivedFor(t: Task, queue: string, idem: string) {
    t.Returned? && t.queue == queue && t.idem == Some(idem)
  }

  /** Under any interleaving of concurrent publishes, ingest and row updates, at most one row exists
      for a (queue, idem) key, and every receipt returned for the key names that one row. */
  lemma IdempotentPublish(steps: seq<Step>, s: State, queue: string, idem: string)
    requires Exec(START, steps) == Some(s)
    ensures forall j, k :: (&& j in s.messages && HasKey(s.messages[j], queue, idem)
                            && k in s.messages && HasKey(s.messages[k], queue, idem)) ==> j == k
    ensures forall k :: 0 <= k < |s.tasks| && ReceivedFor(s.tasks[k], queue, idem) ==>
              var r := s.tasks[k].receipt;
              && r.mid in s.messages && HasKey(s.messages[r.mid], queue, idem) && ReceiptOf(s.messages[r.mid]) == r
              && forall j :: j in s.messages && HasKey(s.messages[j], queue, idem) ==> r == ReceiptOf(s.messages[j])
  {
    InvAlways(steps, s);
    forall j, k | j in s.messages && k in s.messages
                  && HasKey(s.messages[j], queue, idem) && HasKey(s.messages[k], queue, idem)
      ensures j == k
    {
      assert SameIdem(s.messages[j], s.messages[k]);
    }
    forall k | 0 <= k < |s.tasks| && ReceivedFor(s.tasks[k], queue, idem)
      ensures Names(s.messages, queue, Some(idem), s.tasks[k].receipt)
    {
      assert TaskInv(s, s.tasks[k]);
    }
  }

  /** Over whole runs: a keyed publish never fails, and one without a key that fails did so although
      its message is stored under the very ids its receipt would have named. */
  lemma RefusalsAreEchoes(steps: seq<Step>, s: State, k: nat)
    requires Exec(START, steps) == Some(s) && k < |s.tasks| && s.tasks[k].Refused?
    ensures s.tasks[k].rec.idem.None?
    ensures Names(s.messages, s.tasks[k].rec.queue, None, ReceiptOf(s.tasks[k].rec))
  {
    InvAlways(steps, s);
    assert TaskInv(s, s.tasks[k]);
  }

  /** The run behind a refusal: whatever echo of its own event a keyless publish meets before its
      insert, the call fails although the message is stored. */
  function OvertakenByEcho(rec: Record, echo: Record): seq<Step> {
    [Submit(rec.queue, None), PreCheck(0, rec), Land(0), Ingest(echo), Insert(0)]
  }

  lemma OneMore(s: State, steps: seq<Step>, a: Step, t: State)
    requires Exec(s, steps).Some? && Enabled(Exec(s, steps).value, a) && Apply(Exec(s, steps).value, a) == t
    ensures Exec(s, steps + [a]) == Some(t)
  {
    assert (steps + [a])[..|steps|] == steps;
  }

  lemma KeylessPublishCanFail(rec: Record, echo: Record)
    requires rec.idem.None? && EchoOf(echo, rec)
    ensures Exec(START, OvertakenByEcho(rec, echo)) == Some(State(map[rec.mid := echo], [Refused(rec)], {rec}))
  {
    var steps := OvertakenByEcho(rec, echo);
    OneMore(START, [], steps[0], State(map[], [Submitted(rec.queue, None)], {}));
    OneMore(START, [] + steps[..1], steps[1], State(map[], [Built(rec)], {rec}));
    OneMore(START, steps[..1] + [steps[1]], steps[2], State(map[], [Landed(rec)], {rec}));
    assert steps[..1] + [steps[1]] == steps[..2] && steps[..2] + [steps[2]] == steps[..3];
    OneMore(START, steps[..3], steps[3], State(map[rec.mid := echo], [Landed(rec)], {rec}));
    assert steps[..3] + [steps[3]] == steps[..4] && steps[..4] + [steps[4]] == steps;
    OneMore(START, steps[..4], steps[4], State(map[rec.mid := echo], [Refused(rec)], {rec}));
  }

  // ---- The code ----------------------------------------------------------

  datatype QueueMode = WorkQueue | Pubsub

  function ModeName(mode: QueueMode): string {
    if mode.WorkQueue? then "work_queue" else "pubsub"
  }

  datatype Request = Request(queue: string, idem: Option<string>, envelope: string,
                             notBefore: Option<int>, expiresAt: Option<int>, replyTo: Option<string>)

  /** What a publish call draws by itself: new ids, the signature, the time of the insert. */
  datatype Drawn = Drawn(mid: string, traceId: string, sig: Signature, now: int)

  function MessageOf(req: Request, d: Drawn): Message {
    Message(d.mid, req.queue, d.traceId, 0, req.idem, req.envelope, req.notBefore, req.expiresAt, req.replyTo)
  }

  function EventOf(req: Request, d: Drawn, mode: QueueMode): WireEvent {
    Signed(d.sig, KIND_MESSAGE, req.envelope, MessageTags(ModeName(mode), MessageOf(req, d)))
  }

  function StoredAs(m: Message, eventId: nat, createdAt: int, status: Status): Record {
    var visibleAt := if m.notBefore.Some? then m.notBefore.value else 0;
    Record(m.mid, m.queue, eventId, m.traceId, m.envelope, m.idem, createdAt, m.replyTo, None,
           Row(status, m.attempt, 0, None, visibleAt, m.expiresAt))
  }

  /** The row a publisher inserts; a topic needs no ack and is never claimable. */
  function PublishedRecord(req: Request, d: Drawn, mode: QueueMode): Record {
    StoredAs(MessageOf(req, d), d.sig.id, d.now, if mode.WorkQueue? then Pending else Acked)
  }

  /** The row an ingesting node inserts. */
  function IngestedRecord(e: WireEvent, m: Message): Record {
    StoredAs(m, e.id, e.createdAt, Pending)
  }

  /** The row a work-queue publish inserts is the row every protocol run starts from, for a message with
      the request's window. A topic's row is never claimable, and no row is claimable outside its window. */
  lemma PublishedRowIsFresh(req: Request, d: Drawn, mode: QueueMode, p: ClaimProtocol.Params, now: int)
    requires p.notBefore == req.notBefore && p.expiresAt == req.expiresAt
    ensures mode.WorkQueue? ==> PublishedRecord(req, d, mode).row == ClaimProtocol.FreshRow(p)
    ensures mode.Pubsub? ==> !Claimable(PublishedRecord(req, d, mode).row, now)
    ensures req.notBefore.Some? && now < req.notBefore.value ==> !Claimable(PublishedRecord(req, d, mode).row, now)
    ensures req.expiresAt.Some? && now >= req.expiresAt.value ==> !Claimable(PublishedRecord(req, d, mode).row, now)
    ensures (&& mode.WorkQueue? && now >= 0
             && (req.notBefore.Some? ==> now >= req.notBefore.value)
             && (req.expiresAt.Some? ==> now < req.expiresAt.value))
            ==> Claimable(PublishedRecord(req, d, mode).row, now)
  {
  }

  /** The row an ingesting node inserts for an event published at attempt 0 is that same row: it takes its
      window from the event's own tags. */
  lemma IngestedRowIsFresh(e: WireEvent, json: string -> Option<string>, p: ClaimProtocol.Params)
    requires ParseMessageEvent(e, json).Good? && EventAttempt(e) == 0
    requires p.notBefore == OptionalI64(e, "nbf") && p.expiresAt == OptionalI64(e, "exp")
    ensures IngestedRecord(e, ParseMessageEvent(e, json).value).row == ClaimProtocol.FreshRow(p)
  {
  }

  /** Ingest reads the publisher's own event as an echo of the published record, and as the same row
      exactly when the queue is a work queue: of a topic message it makes a pending row. */
  lemma OwnEventIsEcho(req: Request, d: Drawn, mode: QueueMode, json: string -> Option<string>)
    requires InRange(MessageOf(req, d)) && json(req.envelope) == Some(req.envelope)
    ensures var e := EventOf(req, d, mode);
            var parsed, rec := ParseMessageEvent(e, json), PublishedRecord(req, d, mode);
            && parsed.Good? && EchoOf(IngestedRecord(e, parsed.value), rec)
            && (IngestedRecord(e, parsed.value).(createdAt := d.now) == rec <==> mode.WorkQueue?)
            && TagValue(e.tags, "mode") == Some(if mode.WorkQueue? then "work_queue" else "pubsub")
  {
    MessageIsIndexed(d.sig, ModeName(mode), MessageOf(req, d));
    MessageRoundTrip(d.sig, ModeName(mode), MessageOf(req, d), json);
  }

  /** The records of the events that can be read, in order of arrival; malformed ones are skipped. */
  function Readable(events: seq<WireEvent>, json: string -> Option<string>): seq<Record> {
    if events == [] then []
    else
      var e := events[|events| - 1];
      var parsed := ParseMessageEvent(e, json);
      Readable(events[..|events| - 1], json) + if parsed.Good? then [IngestedRecord(e, parsed.value)] else []
  }

  function InsertedAll(m: Messages, recs: seq<Record>): Messages {
    if recs == [] then m else Inserted(InsertedAll(m, recs[..|recs| - 1]), recs[|recs| - 1])
  }

  lemma ConflictStays(m: Messages, other: Record, rec: Record)
    requires rec == other || Conflicts(m, rec)
    ensures Conflicts(Inserted(m, other), rec)
  {
    if rec.mid !in m && rec != other {
      var k :| k in m && (m[k].eventId == rec.eventId || SameIdem(m[k], rec));
      assert k in Inserted(m, other) && Inserted(m, other)[k] == m[k];
    }
  }

  /** Everything offered is stored or was kept out by a row that is still there. */
  lemma {:induction false} AllConflictAfter(m: Messages, recs: seq<Record>, rec: Record)
    requires rec in recs || Conflicts(m, rec)
    ensures Conflicts(InsertedAll(m, recs), rec)
  {
    if recs != [] {
      var init, last := recs[..|recs| - 1], recs[|recs| - 1];
      assert recs == init + [last];
      if rec in init || Conflicts(m, rec) {
        AllConflictAfter(m, init, rec);
      }
      ConflictStays(InsertedAll(m, init), last, rec);
    }
  }

  lemma {:induction false} NothingNew(m: Messages, recs: seq<Record>)
    requires forall rec :: rec in recs ==> Conflicts(m, rec)
    ensures InsertedAll(m, recs) == m
  {
    if recs != [] {
      NothingNew(m, recs[..|recs| - 1]);
    }
  }

  /** A relay may deliver events again, in any order and any number of times: whatever was ingested
      before changes nothing when it is ingested again. */
  lemma RedeliveryChangesNothing(m: Messages, recs: seq<Record>, again: seq<Record>)
    requires forall rec :: rec in again ==> rec in recs
    ensures InsertedAll(InsertedAll(m, recs), again) == InsertedAll(m, recs)
  {
    forall rec | rec in again ensures Conflicts(InsertedAll(m, recs), rec) {
      AllConflictAfter(m, recs, rec);
    }
    NothingNew(InsertedAll(m, recs), again);
  }

  lemma IngestAddsOwnRow(m: Messages, e: WireEvent, json: string -> Option<string>, k: string)
    requires k in AfterIngest(m, e, json)
    ensures if k in m then AfterIngest(m, e, json)[k] == m[k] else IsIngestOf(AfterIngest(m, e, json)[k], e, json, k)
  {
  }

  /** Every row that ingest adds is that of one of the events, field by field, under the event's mid. */
  lemma {:induction false} IngestedRows(m: Messages, events: seq<WireEvent>, json: string -> Option<string>, k: string)
      returns (e: WireEvent)
    requires k in InsertedAll(m, Readable(events, json)) && k !in m
    ensures e in events && IsIngestOf(InsertedAll(m, Readable(events, json))[k], e, json, k)
  {
    assert events != [];
    var init, last := events[..|events| - 1], events[|events| - 1];
    var before, after := InsertedAll(m, Readable(init, json)), InsertedAll(m, Readable(events, json));
    IngestNext(m, events, |init|, json);
    assert events[..|init| + 1] == events;
    assert after == AfterIngest(before, last, json);
    IngestAddsOwnRow(before, last, json, k);
    if k in before {
      e := IngestedRows(m, init, json, k);
    } else {
      e := last;
    }
  }

  /** Row `rec` holds exactly what event `e` says, pending from its not-before time on. */
  ghost predicate IsIngestOf(rec: Record, e: WireEvent, json: string -> Option<string>, mid: string) {
    && TagValue(e.tags, "mid") == Some(mid) && json(e.content).Some?
    && TagValue(e.tags, "t") == Some(rec.queue) && TagValue(e.tags, "trace") == Some(rec.traceId)
    && rec == Record(mid, rec.queue, e.id, rec.traceId, json(e.content).value, TagValue(e.tags, "idem"), e.createdAt,
                     TagValue(e.tags, "reply"), None,
                     Row(Pending, EventAttempt(e), 0, None,
                         match OptionalI64(e, "nbf") case Some(nbf) => nbf case None => 0, OptionalI64(e, "exp")))
  }

  /** The event's message is stored, or a row with its mid, its event id or its key was there first. */
  ghost predicate Kept(m: Messages, e: WireEvent) {
    exists k :: && k in m
                && (|| TagValue(e.tags, "mid") == Some(k) || m[k].eventId == e.id
                    || (&& TagValue(e.tags, "t") == Some(m[k].queue) && m[k].idem.Some?
                        && TagValue(e.tags, "idem") == m[k].idem))
  }

  /** No readable event is lost. */
  lemma ReadableAreKept(m: Messages, events: seq<WireEvent>, json: string -> Option<string>, e: WireEvent)
    requires e in events && json(e.content).Some? && HasTag(e, "mid") && HasTag(e, "t") && HasTag(e, "trace")
    ensures Kept(InsertedAll(m, Readable(events, json)), e)
  {
    MalformedExactly(e, json);
    var rec := IngestedRecord(e, ParseMessageEvent(e, json).value);
    ReadableIsIn(events, json, e);
    AllConflictAfter(m, Readable(events, json), rec);
    var after := InsertedAll(m, Readable(events, json));
    if rec.mid !in after {
      var k :| k in after && (after[k].eventId == rec.eventId || SameIdem(after[k], rec));
      assert TagValue(e.tags, "t") == Some(rec.queue);
    }
  }

  lemma {:induction false} ReadableIsIn(events: seq<WireEvent>, json: string -> Option<string>, e: WireEvent)
    requires e in events && ParseMessageEvent(e, json).Good?
    ensures IngestedRecord(e, ParseMessageEvent(e, json).value) in Readable(events, json)
  {
    var init, last := events[..|events| - 1], events[|events| - 1];
    if e != last {
      assert events == init + [last];
      ReadableIsIn(init, json, e);
    }
  }

  function AfterIngest(m: Messages, e: WireEvent, json: string -> Option<string>): Messages {
    var parsed := ParseMessageEvent(e, json);
    if parsed.Good? then Inserted(m, IngestedRecord(e, parsed.value)) else m
  }

  lemma IngestNext(m: Messages, events: seq<WireEvent>, k: nat, json: string -> Option<string>)
    requires k < |events|
    ensures InsertedAll(m, Readable(events[..k + 1], json))
         == AfterIngest(InsertedAll(m, Readable(events[..k], json)), events[k], json)
  {
    var recs, parsed := Readable(events[..k], json), ParseMessageEvent(events[k], json);
    assert events[..k + 1][..k] == events[..k] && events[..k + 1][k] == events[k];
    if parsed.Good? {
      var rec := IngestedRecord(events[k], parsed.value);
      assert (recs + [rec])[..|recs|] == recs;
      assert Readable(events[..k + 1], json) == recs + [rec];
    } else {
      assert recs + [] == recs;
      assert Readable(events[..k + 1], json) == recs;
    }
  }

  /** The ingest loop over the events a subscription delivers. */
  method IngestAll(store: Store, events: seq<WireEvent>, json: string -> Option<string>)
    requires store.Valid()
    modifies store
    ensures store.Valid() && store.dlq == old(store.dlq)
    ensures store.messages == InsertedAll(old(store.messages), Readable(events, json))
    ensures forall k :: k in old(store.messages) ==> k in store.messages && store.messages[k] == old(store.messages)[k]
    ensures forall k :: k in store.messages && k !in old(store.messages) ==>
              exists e :: e in events && IsIngestOf(store.messages[k], e, json, k)
    ensures forall e :: e in events && json(e.content).Some? && HasTag(e, "mid") && HasTag(e, "t") && HasTag(e, "trace")
              ==> Kept(store.messages, e)
  {
    ghost var before := store.messages;
    for k := 0 to |events|
      invariant store.Valid() && store.dlq == old(store.dlq)
      invariant store.messages == InsertedAll(before, Readable(events[..k], json))
      invariant forall k :: k in before ==> k in store.messages && store.messages[k] == before[k]
    {
      IngestNext(before, events, k, json);
      var parsed := ParseMessageEvent(events[k], json);
      if parsed.Good? {
        var added := store.InsertMessage(IngestedRecord(events[k], parsed.value));
      }
    }
    assert events[..|events|] == events;
    forall k | k in store.messages && k !in before
      ensures exists e :: e in events && IsIngestOf(store.messages[k], e, json, k)
    {
      var e := IngestedRows(before, events, json, k);
    }
    forall e | e in events && json(e.content).Some? && HasTag(e, "mid") && HasTag(e, "t") && HasTag(e, "trace")
      ensures Kept(store.messages, e)
    {
      ReadableAreKept(before, events, json, e);
    }
  }

  datatype PublishResult = Published(receipt: Receipt) | NotPersisted | UnknownQueue

  /** `publish_internal`: queue lookup, pre-check, publish, insert, and on a lost insert the surviving
      row's receipt. `meanwhile` is what ingest reads while the relay publish is awaited; `sent` is
      the event that went out, if any. */
  method PublishInternal(store: Store, mode: Option<QueueMode>, req: Request, d: Drawn,
                         meanwhile: seq<WireEvent>, json: string -> Option<string>)
    returns (r: PublishResult, sent: Option<WireEvent>)
    requires store.Valid()
    modifies store
    ensures store.Valid() && store.dlq == old(store.dlq)
    ensures r.UnknownQueue? <==> mode.None?
    ensures sent.Some? <==> mode.Some? && old(Find(store.messages, req.queue, req.idem)).None?
    ensures sent.None? ==> store.messages == old(store.messages)
    ensures sent.None? && mode.Some? ==> r.Published? && Names(store.messages, req.queue, req.idem, r.receipt)
    ensures sent.Some? ==>
              var rec := PublishedRecord(req, d, mode.value);
              var before := InsertedAll(old(store.messages), Readable(meanwhile, json));
              && sent.value == EventOf(req, d, mode.value)
              && store.messages == Inserted(before, rec)
              && (!Conflicts(before, rec) ==> r == Published(Receipt(d.mid, d.traceId, d.sig.id)))
              && (!Conflicts(before, rec) ==>
                    var status := if mode.value.WorkQueue? then Pending else Acked;
                    var visibleAt := if req.notBefore.Some? then req.notBefore.value else 0;
                    && d.mid in store.messages
                    && store.messages[d.mid]
                    == Record(d.mid, req.queue, d.sig.id, d.traceId, req.envelope, req.idem, d.now, req.replyTo, None,
                              Row(status, 0, 0, None, visibleAt, req.expiresAt)))
              && (Conflicts(before, rec) && Find(before, rec.queue, rec.idem).None? ==> r == NotPersisted)
              && (Conflicts(before, rec) && Find(before, rec.queue, rec.idem).Some? ==>
                    r.Published? && Names(store.messages, rec.queue, rec.idem, r.receipt))
  {
    if mode.None? {
      return UnknownQueue, None;
    }
    if req.idem.Some? {
      var existing := store.FindByIdem(req.queue, req.idem.value);
      if existing.Some? {
        assert HasKey(existing.value, req.queue, req.idem.value);
        return Published(ReceiptOf(existing.value)), None;
      }
    }
    var event := BuildMessageEvent(d.sig, ModeName(mode.value), MessageOf(req, d));
    sent := Some(event);
    IngestAll(store, meanwhile, json);
    var rec := StoredAs(MessageOf(req, d), event.id, d.now, if mode.value.WorkQueue? then Pending else Acked);
    var inserted := store.InsertMessage(rec);
    if !inserted {
      if req.idem.Some? {
        var existing := store.FindByIdem(req.queue, req.idem.value);
        if existing.Some? {
          return Published(ReceiptOf(existing.value)), sent;
        }
      }
      return NotPersisted, sent;
    }
    r := Published(ReceiptOf(rec));
  }
}
