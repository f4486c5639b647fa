/** The embedded development relay: crates/nostr-q-relay/src/dev_relay.rs, the EVENT, REQ and CLOSE
    messages of NIP-01. Connection tasks run concurrently; pushing an event and broadcasting it are
    two steps, and a REQ writes its snapshot one frame at a time before it registers. */
module DevRelay {
  import opened Base

  datatype Note = Note(id: nat, kind: nat, topics: set<string>)

  datatype Filter = Filter(kinds: Option<set<nat>>, topics: Option<set<string>>)

  predicate MatchesOne(f: Filter, e: Note) {
    && (f.kinds.Some? ==> e.kind in f.kinds.value)
    && (f.topics.Some? ==> f.topics.value * e.topics != {})
  }

  predicate Matches(filters: seq<Filter>, e: Note) {
    exists k :: 0 <= k < |filters| && MatchesOne(filters[k], e)
  }

  function Matching(filters: seq<Filter>, notes: seq<Note>): seq<Note> {
    if notes == [] then []
    else
      var last := notes[|notes| - 1];
      Matching(filters, notes[..|notes| - 1]) + if Matches(filters, last) then [last] else []
  }

  datatype Frame = EventFrame(sub: string, note: Note) | Eose(sub: string) | Ok(id: nat, accepted: bool)

  /** What a connection task is in the middle of. A replay has to send `stored`, the matches among
      the first `snapshot` notes, and began when `since` frames had been written. */
  datatype Handler =
    | Ready
    | Broadcasting(note: Note)
    | Replaying(sub: string, filters: seq<Filter>, stored: seq<Note>, done: nat, since: nat, snapshot: nat)

  datatype Conn =
    Conn(live: seq<Note>, subs: map<string, seq<Filter>>, sent: seq<Frame>, handler: Handler, lagged: bool)

  datatype Relay = Relay(notes: seq<Note>, conns: seq<Conn>)

  datatype Step =
    | Connect
    | Event(c: nat, note: Note, valid: bool)
    | Broadcast(c: nat)
    | Req(c: nat, sub: string, filters: seq<Filter>)
    | Replay(c: nat)
    | FinishReq(c: nat)
    | Close(c: nat, sub: string)
    | Live(c: nat, order: seq<string>)
    | Lag(c: nat, missed: nat)

  /** `order` lists each open subscription that wants the note exactly once, in hash-map order. */
  ghost predicate Fanout(subs: map<string, seq<Filter>>, e: Note, order: seq<string>) {
    && (forall id :: id in order <==> id in subs && Matches(subs[id], e))
    && (forall j, k :: 0 <= j < k < |order| ==> order[j] != order[k])
  }

  function Frames(order: seq<string>, e: Note): seq<Frame> {
    seq(|order|, k requires 0 <= k < |order| => EventFrame(order[k], e))
  }

  function Replays(sub: string, notes: seq<Note>): seq<Frame> {
    seq(|notes|, k requires 0 <= k < |notes| => EventFrame(sub, notes[k]))
  }

  /** The connection exists and its task is at the point where it can take the step. */
  predicate Fits(s: Relay, a: Step) {
    a.Connect? ||
    (a.c < |s.conns| &&
     var h := s.conns[a.c].handler;
     match a
     case Connect => true
     case Event(_, _, _) => h.Ready?
     case Broadcast(_) => h.Broadcasting?
     case Req(_, _, _) => h.Ready?
     case Replay(_) => h.Replaying? && h.done < |h.stored|
     case FinishReq(_) => h.Replaying? && h.done == |h.stored|
     case Close(_, _) => h.Ready?
     case Live(_, _) => h.Ready? && s.conns[a.c].live != []
     case Lag(_, missed) => h.Ready? && 0 < missed <= |s.conns[a.c].live|)
  }

  ghost predicate Enabled(s: Relay, a: Step) {
    Fits(s, a) && (a.Live? ==> Fanout(s.conns[a.c].subs, s.conns[a.c].live[0], a.order))
  }

  function Received(n: Conn, e: Note): Conn {
    n.(live := n.live + [e])
  }

  /** What a step does to the connection that takes it. */
  function ConnAfter(s: Relay, a: Step): Conn
    requires Fits(s, a) && !a.Connect?
  {
    var n := s.conns[a.c];
    var h := n.handler;
    match a
    case Event(_, e, valid) =>
      if valid then n.(handler := Broadcasting(e)) else n.(sent := n.sent + [Ok(e.id, false)])
    case Broadcast(_) => Received(n, h.note).(sent := n.sent + [Ok(h.note.id, true)], handler := Ready)
    case Req(_, sub, filters) =>
      n.(handler := Replaying(sub, filters, Matching(filters, s.notes), 0, |n.sent|, |s.notes|))
    case Replay(_) => n.(sent := n.sent + [EventFrame(h.sub, h.stored[h.done])], handler := h.(done := h.done + 1))
    case FinishReq(_) => n.(sent := n.sent + [Eose(h.sub)], subs := n.subs[h.sub := h.filters], handler := Ready)
    case Close(_, sub) => n.(subs := n.subs - {sub})
    case Live(_, order) => n.(sent := n.sent + Frames(order, n.live[0]), live := n.live[1..])
    case Lag(_, missed) => n.(live := n.live[missed..], lagged := true)
  }

  function Apply(s: Relay, a: Step): Relay
    requires Fits(s, a)
  {
    match a
    case Connect => s.(conns := s.conns + [Conn([], map[], [], Ready, false)])
    case Event(c, e, valid) => Relay(if valid then s.notes + [e] else s.notes, s.conns[c := ConnAfter(s, a)])
    case Broadcast(c) =>
      s.(conns := seq(|s.conns|, k requires 0 <= k < |s.conns| =>
                      if k == c then ConnAfter(s, a) else Received(s.conns[k], s.conns[c].handler.note)))
    case _ => s.(conns := s.conns[a.c := ConnAfter(s, a)])
  }

  ghost function Exec(s: Relay, steps: seq<Step>): Option<Relay> {
    if steps == [] then Some(s)
    else
      var before, last := Exec(s, steps[..|steps| - 1]), steps[|steps| - 1];
      if before.Some? && Enabled(before.value, last) then Some(Apply(before.value, last)) else None
  }

  const EMPTY := Relay([], [])

  // ---- Invariant ---------------------------------------------------------

  lemma {:induction false} MatchingMembers(filters: seq<Filter>, notes: seq<Note>, e: Note)
    ensures e in Matching(filters, notes) <==> e in notes && Matches(filters, e)
  {
    if notes != [] {
      MatchingMembers(filters, notes[..|notes| - 1], e);
      assert notes == notes[..|notes| - 1] + [notes[|notes| - 1]];
    }
  }

  /** A note is stored for a subscription exactly when one of the subscription's filters accepts it, and
      a filter accepts it when every condition it states is met. */
  lemma MatchingOne(filters: seq<Filter>, e: Note)
    ensures Matching(filters, [e]) == [e] || Matching(filters, [e]) == []
    ensures Matching(filters, [e]) == [e] <==>
            (exists f :: && f in filters && (f.kinds.Some? ==> e.kind in f.kinds.value)
                         && (f.topics.Some? ==> exists t :: t in e.topics && t in f.topics.value))
  {
    assert [e][..0] == [];
    if f :| f in filters && (f.kinds.Some? ==> e.kind in f.kinds.value)
                         && (f.topics.Some? ==> exists t :: t in e.topics && t in f.topics.value) {
      if f.topics.Some? {
        var t :| t in e.topics && t in f.topics.value;
        assert t in f.topics.value * e.topics;
      }
      assert MatchesOne(f, e);
    }
    if k :| 0 <= k < |filters| && MatchesOne(filters[k], e) {
      if filters[k].topics.Some? {
        var t :| t in filters[k].topics.value * e.topics;
      }
      assert filters[k] in filters;
    }
  }

  /** Matches are listed in storage order. */
  lemma {:induction false} MatchingConcat(filters: seq<Filter>, older: seq<Note>, newer: seq<Note>)
    ensures Matching(filters, older + newer) == Matching(filters, older) + Matching(filters, newer)
  {
    if newer == [] {
      assert older + newer == older;
    } else {
      MatchingConcat(filters, older, newer[..|newer| - 1]);
      assert (older + newer)[..|older + newer| - 1] == older + newer[..|newer| - 1];
    }
  }

  /** Pushed, but its broadcast is still to come. */
  ghost predicate InPush(s: Relay, e: Note) {
    exists k :: 0 <= k < |s.conns| && s.conns[k].handler == Broadcasting(e)
  }

  /** The note is on its way to the connection, or already sent under `sub`. */
  ghost predicate Covered(s: Relay, c: nat, sub: string, e: Note)
    requires c < |s.conns|
  {
    EventFrame(sub, e) in s.conns[c].sent || e in s.conns[c].live || InPush(s, e)
  }

  ghost predicate SubsCovered(s: Relay, c: nat)
    requires c < |s.conns|
  {
    forall sub, e :: sub in s.conns[c].subs && e in s.notes && Matches(s.conns[c].subs[sub], e)
                     ==> Covered(s, c, sub, e)
  }

  ghost predicate ReplayCovered(s: Relay, c: nat)
    requires c < |s.conns|
  {
    var h := s.conns[c].handler;
    h.Replaying? ==>
      && h.done <= |h.stored|
      && forall e :: e in s.notes && Matches(h.filters, e) ==> Covered(s, c, h.sub, e) || e in h.stored[h.done..]
  }

  /** A replay has written exactly the first `done` stored notes since it began, in order. */
  ghost predicate ReplayExact(n: Conn) {
    n.handler.Replaying? ==>
      && n.handler.done <= |n.handler.stored| && n.handler.since <= |n.sent|
      && n.sent[n.handler.since..] == Replays(n.handler.sub, n.handler.stored[..n.handler.done])
  }

  /** Nothing is sent that is not stored. */
  ghost predicate Genuine(s: Relay, c: nat)
    requires c < |s.conns|
  {
    var n := s.conns[c];
    && (forall sub, e :: EventFrame(sub, e) in n.sent ==> e in s.notes)
    && (forall e :: e in n.live ==> e in s.notes)
    && (n.handler.Broadcasting? ==> n.handler.note in s.notes)
    && (n.handler.Replaying? ==>
          && n.handler.snapshot <= |s.notes|
          && n.handler.stored == Matching(n.handler.filters, s.notes[..n.handler.snapshot])
          && forall e :: e in n.handler.stored ==> e in s.notes)
  }

  ghost predicate ConnInv(s: Relay, c: nat)
    requires c < |s.conns|
  {
    (s.conns[c].lagged || (SubsCovered(s, c) && ReplayCovered(s, c))) && ReplayExact(s.conns[c]) && Genuine(s, c)
  }

  ghost predicate Inv(s: Relay) {
    forall c :: 0 <= c < |s.conns| ==> ConnInv(s, c)
  }

  /** A push or broadcast by anyone keeps the notes on their way. */
  lemma CoveredStays(s: Relay, a: Step, c: nat, sub: string, e: Note)
    requires Enabled(s, a) && c < |s.conns| && Covered(s, c, sub, e)
    requires a.Live? && a.c == c ==> e != s.conns[c].live[0]
    requires !(a.Lag? && a.c == c)
    ensures c < |Apply(s, a).conns| && Covered(Apply(s, a), c, sub, e)
  {
    var t := Apply(s, a);
    var n, n' := s.conns[c], t.conns[c];
    assert forall f :: f in n.sent ==> f in n'.sent;
    if e in n.live {
      assert e in n'.live by {
        var k :| 0 <= k < |n.live| && n.live[k] == e;
        if a.Live? && a.c == c {
          assert n'.live[k - 1] == e;
        } else {
          assert n'.live[k] == e;
        }
      }
    } else if !(EventFrame(sub, e) in n.sent) {
      var k :| 0 <= k < |s.conns| && s.conns[k].handler == Broadcasting(e);
      if a.Broadcast? && a.c == k {
        assert n'.live == n.live + [e];
      } else {
        assert t.conns[k].handler == Broadcasting(e);
      }
    }
  }

  /** A drained note has been written to every open subscription that wants it. */
  lemma LiveDelivers(s: Relay, a: Step, sub: string)
    requires Enabled(s, a) && a.Live?
    requires sub in s.conns[a.c].subs && Matches(s.conns[a.c].subs[sub], s.conns[a.c].live[0])
    ensures EventFrame(sub, s.conns[a.c].live[0]) in Apply(s, a).conns[a.c].sent
  {
    var n := s.conns[a.c];
    var k :| 0 <= k < |a.order| && a.order[k] == sub;
    assert Apply(s, a).conns[a.c].sent[|n.sent| + k] == EventFrame(sub, n.live[0]);
  }

  lemma SubsCoveredStep(s: Relay, a: Step, c: nat)
    requires Inv(s) && Enabled(s, a) && c < |s.conns| && !Apply(s, a).conns[c].lagged
    ensures SubsCovered(Apply(s, a), c)
  {
    var t := Apply(s, a);
    assert ConnInv(s, c);
    forall sub, e | sub in t.conns[c].subs && e in t.notes && Matches(t.conns[c].subs[sub], e)
      ensures Covered(t, c, sub, e)
    {
      if e !in s.notes {
        assert t.conns[a.c].handler == Broadcasting(e);
      } else if a.FinishReq? && a.c == c && sub == s.conns[c].handler.sub {
        CoveredStays(s, a, c, sub, e);
      } else {
        assert Covered(s, c, sub, e);
        if a.Live? && a.c == c && e == s.conns[c].live[0] {
          LiveDelivers(s, a, sub);
        } else {
          CoveredStays(s, a, c, sub, e);
        }
      }
    }
  }

  lemma ReplayCoveredStep(s: Relay, a: Step, c: nat)
    requires Inv(s) && Enabled(s, a) && c < |s.conns| && !Apply(s, a).conns[c].lagged
    ensures ReplayCovered(Apply(s, a), c)
  {
    var t := Apply(s, a);
    assert ConnInv(s, c);
    var h := t.conns[c].handler;
    if h.Replaying? {
      forall e | e in t.notes && Matches(h.filters, e)
        ensures Covered(t, c, h.sub, e) || e in h.stored[h.done..]
      {
        if a.Req? && a.c == c {
          MatchingMembers(h.filters, s.notes, e);
          assert h.stored[0..] == h.stored;
        } else if e !in s.notes {
          assert t.conns[a.c].handler == Broadcasting(e);
        } else if Covered(s, c, h.sub, e) {
          CoveredStays(s, a, c, h.sub, e);
        } else if a.Replay? && a.c == c {
          var was := s.conns[c].handler;
          assert was.stored[was.done..] == [was.stored[was.done]] + was.stored[was.done + 1..];
          if e == was.stored[was.done] {
            assert t.conns[c].sent[|s.conns[c].sent|] == EventFrame(h.sub, e);
          }
        }
      }
    }
  }

  lemma ReplayExactStep(s: Relay, a: Step, c: nat)
    requires Inv(s) && Enabled(s, a) && c < |s.conns|
    ensures ReplayExact(Apply(s, a).conns[c])
  {
    assert ConnInv(s, c);
    var n, n' := s.conns[c], Apply(s, a).conns[c];
    if a.Replay? && a.c == c {
      var h := n.handler;
      assert n'.sent[h.since..] == n.sent[h.since..] + [EventFrame(h.sub, h.stored[h.done])];
    }
  }

  lemma GenuineStep(s: Relay, a: Step, c: nat)
    requires Inv(s) && Enabled(s, a) && c < |s.conns|
    ensures Genuine(Apply(s, a), c)
  {
    assert ConnInv(s, c);
    if a.Req? && a.c == c {
      assert s.notes[..|s.notes|] == s.notes;
      forall e ensures e in Matching(a.filters, s.notes) ==> e in s.notes {
        MatchingMembers(a.filters, s.notes, e);
      }
    }
    if a.Broadcast? {
      assert ConnInv(s, a.c);
    }
    if a.Event? && s.conns[c].handler.Replaying? {
      assert (s.notes + [a.note])[..s.conns[c].handler.snapshot] == s.notes[..s.conns[c].handler.snapshot];
    }
  }

  lemma InvStep(s: Relay, a: Step)
    requires Inv(s) && Enabled(s, a)
    ensures Inv(Apply(s, a))
  {
    var t := Apply(s, a);
    forall c | 0 <= c < |t.conns| ensures ConnInv(t, c) {
      if c < |s.conns| {
        if !t.conns[c].lagged {
          SubsCoveredStep(s, a, c);
          ReplayCoveredStep(s, a, c);
        }
        ReplayExactStep(s, a, c);
        GenuineStep(s, a, c);
      }
    }
  }

  lemma {:induction false} InvAlways(steps: seq<Step>, t: Relay)
    requires Exec(EMPTY, steps) == Some(t)
    ensures Inv(t)
  {
    if steps != [] {
      var s := Exec(EMPTY, steps[..|steps| - 1]).value;
      InvAlways(steps[..|steps| - 1], s);
      InvStep(s, steps[|steps| - 1]);
    }
  }

  // ---- Results -----------------------------------------------------------

  /** Delivery: in every interleaving, once no push is awaiting its broadcast and a connection that
      never lagged has drained its live buffer, each of its open subscriptions has been sent every
      stored matching event. */
  lemma Delivery(steps: seq<Step>, s: Relay, c: nat, sub: string, e: Note)
    requires Exec(EMPTY, steps) == Some(s) && c < |s.conns| && !s.conns[c].lagged
    requires forall k :: 0 <= k < |s.conns| ==> !s.conns[k].handler.Broadcasting?
    requires s.conns[c].live == []
    requires sub in s.conns[c].subs && e in s.notes && Matches(s.conns[c].subs[sub], e)
    ensures EventFrame(sub, e) in s.conns[c].sent
  {
    InvAlways(steps, s);
    assert ConnInv(s, c);
    assert Covered(s, c, sub, e);
  }

  /** Nothing is invented: every event frame carries a stored event. */
  lemma OnlyStoredIsSent(steps: seq<Step>, s: Relay, c: nat, sub: string, e: Note)
    requires Exec(EMPTY, steps) == Some(s) && c < |s.conns| && EventFrame(sub, e) in s.conns[c].sent
    ensures e in s.notes
  {
    InvAlways(steps, s);
    assert ConnInv(s, c);
  }

  /** The answer to a REQ is exactly the stored matches at the time of its snapshot, each once and
      in storage order, followed by EOSE, whatever other connections do meanwhile. */
  lemma ReqAnswer(s: Relay, c: nat)
    requires Inv(s) && Enabled(s, FinishReq(c))
    ensures var h, sent := s.conns[c].handler, Apply(s, FinishReq(c)).conns[c].sent;
            && h.since <= |s.conns[c].sent| && h.snapshot <= |s.notes|
            && sent[..h.since] == s.conns[c].sent[..h.since]
            && sent[h.since..] == Replays(h.sub, Matching(h.filters, s.notes[..h.snapshot])) + [Eose(h.sub)]
  {
    assert ConnInv(s, c);
    var n := s.conns[c];
    var h := n.handler;
    assert h.stored[..h.done] == h.stored;
    assert (n.sent + [Eose(h.sub)])[h.since..] == n.sent[h.since..] + [Eose(h.sub)];
  }

  lemma AnswerFrames(sent: seq<Frame>, since: nat, sub: string, stored: seq<Note>)
    requires since <= |sent| && sent[since..] == Replays(sub, stored) + [Eose(sub)]
    ensures |sent| == since + |stored| + 1 && sent[since + |stored|] == Eose(sub)
    ensures forall k :: 0 <= k < |stored| ==> sent[since + k] == EventFrame(sub, stored[k])
  {
    forall k | 0 <= k <= |stored| ensures sent[since + k] == (Replays(sub, stored) + [Eose(sub)])[k] {
      assert sent[since..][k] == sent[since + k];
    }
  }

  /** The subscription is closed and no REQ is about to open it. */
  predicate Closed(n: Conn, sub: string) {
    sub !in n.subs && (n.handler.Replaying? ==> n.handler.sub != sub)
  }

  /** Frames of the subscription, in the order written. */
  function FramesOf(sent: seq<Frame>, sub: string): seq<Note> {
    if sent == [] then []
    else
      var last := sent[|sent| - 1];
      FramesOf(sent[..|sent| - 1], sub) + if last.EventFrame? && last.sub == sub then [last.note] else []
  }

  lemma {:induction false} OtherFrames(sent: seq<Frame>, more: seq<Frame>, sub: string)
    requires forall k :: 0 <= k < |more| && more[k].EventFrame? ==> more[k].sub != sub
    ensures FramesOf(sent + more, sub) == FramesOf(sent, sub)
  {
    if more == [] {
      assert sent + more == sent;
    } else {
      OtherFrames(sent, more[..|more| - 1], sub);
      assert (sent + more)[..|sent + more| - 1] == sent + more[..|more| - 1];
    }
  }

  lemma FramesSnoc(sent: seq<Frame>, f: Frame, sub: string)
    ensures FramesOf(sent + [f], sub) == FramesOf(sent, sub) + if f.EventFrame? && f.sub == sub then [f.note] else []
  {
    assert (sent + [f])[..|sent|] == sent;
  }

  /** The frames of one live note under one subscription. */
  lemma {:induction false} FanoutFrames(sent: seq<Frame>, order: seq<string>, e: Note, sub: string)
    requires forall j, k :: 0 <= j < k < |order| ==> order[j] != order[k]
    ensures FramesOf(sent + Frames(order, e), sub) == FramesOf(sent, sub) + if sub in order then [e] else []
  {
    if order == [] {
      assert sent + Frames(order, e) == sent;
    } else {
      var init, last := order[..|order| - 1], order[|order| - 1];
      FanoutFrames(sent, init, e, sub);
      assert order == init + [last];
      FramesSnoc(sent + Frames(init, e), EventFrame(last, e), sub);
      assert sent + Frames(order, e) == sent + Frames(init, e) + [EventFrame(last, e)];
    }
  }

  /** A live note is written once under every open subscription that wants it and under no other. */
  lemma LiveIsSentOnce(s: Relay, c: nat, order: seq<string>, sub: string)
    requires Enabled(s, Live(c, order))
    ensures var n, n' := s.conns[c], Apply(s, Live(c, order)).conns[c];
            && n'.live == n.live[1..] && n'.subs == n.subs
            && FramesOf(n'.sent, sub)
            == FramesOf(n.sent, sub) + if sub in n.subs && Matches(n.subs[sub], n.live[0]) then [n.live[0]] else []
  {
    FanoutFrames(s.conns[c].sent, order, s.conns[c].live[0], sub);
  }

  /** A receiver that lags loses its oldest notes: whatever is left is what arrived last. */
  lemma LagLosesOldest(s: Relay, c: nat, missed: nat)
    requires Enabled(s, Lag(c, missed))
    ensures var n, n' := s.conns[c], Apply(s, Lag(c, missed)).conns[c];
            && n'.lagged && n'.sent == n.sent && n'.subs == n.subs
            && |n'.live| == |n.live| - missed
            && (n'.live != [] ==> n'.live[|n'.live| - 1] == n.live[|n.live| - 1])
  {
  }

  lemma ClosedStep(s: Relay, a: Step, c: nat, sub: string)
    requires Enabled(s, a) && c < |s.conns| && Closed(s.conns[c], sub)
    requires !(a.Req? && a.c == c && a.sub == sub)
    ensures var n, n' := s.conns[c], Apply(s, a).conns[c];
            Closed(n', sub) && FramesOf(n'.sent, sub) == FramesOf(n.sent, sub)
  {
    var n, n' := s.conns[c], Apply(s, a).conns[c];
    if n'.sent != n.sent {
      var more := n'.sent[|n.sent|..];
      assert n'.sent == n.sent + more;
      OtherFrames(n.sent, more, sub);
    }
  }

  /** A subscription that was closed is silent: over any run without a new REQ of its id, the
      connection is sent no event under it, whatever is stored or broadcast. */
  lemma {:induction false} ClosedStaysSilent(s: Relay, steps: seq<Step>, t: Relay, c: nat, sub: string)
    requires Exec(s, steps) == Some(t) && c < |s.conns| && Closed(s.conns[c], sub)
    requires forall k :: 0 <= k < |steps| ==> !(steps[k].Req? && steps[k].c == c && steps[k].sub == sub)
    ensures c < |t.conns| && Closed(t.conns[c], sub)
    ensures FramesOf(t.conns[c].sent, sub) == FramesOf(s.conns[c].sent, sub)
  {
    if steps != [] {
      var mid := Exec(s, steps[..|steps| - 1]).value;
      ClosedStaysSilent(s, steps[..|steps| - 1], mid, c, sub);
      ClosedStep(mid, steps[|steps| - 1], c, sub);
    }
  }

  // ---- The relay's tasks -------------------------------------------------

  /** What another task can change about a connection: notes arrive in its receiver. */
  predicate OnlyReceived(n: Conn, n': Conn) {
    n' == n.(live := n'.live) && n.live <= n'.live
  }

  /** The shared state of the connection tasks, updated in place. `others` arguments say what other
      connections do while a handler awaits. */
  class Server {
    var notes: seq<Note>
    var conns: seq<Conn>

    ghost function State(): Relay
      reads this
    {
      Relay(notes, conns)
    }

    constructor ()
      ensures State() == EMPTY && Inv(State())
    {
      notes, conns := [], [];
    }

    /** One step of one connection task. */
    method Take(a: Step)
      requires Inv(State()) && Enabled(State(), a)
      modifies this
      ensures State() == old(Apply(State(), a)) && Inv(State())
    {
      InvStep(State(), a);
      var t := Apply(Relay(notes, conns), a);
      notes, conns := t.notes, t.conns;
    }

    /** Other connections take any of their steps that are possible. Connection `c` notices only
        what it receives, and nothing stored is lost. */
    method OthersRun(c: nat, others: seq<Step>)
      requires Inv(State()) && c < |conns|
      modifies this
      ensures Inv(State()) && c < |conns| && OnlyReceived(old(conns[c]), conns[c]) && old(notes) <= notes
    {
      for k := 0 to |others|
        invariant Inv(State()) && c < |conns| && OnlyReceived(old(conns[c]), conns[c]) && old(notes) <= notes
      {
        var a := others[k];
        if Fits(Relay(notes, conns), a) && (a.Connect? || a.c != c) {
          if a.Live? {
            var order := DeliverLive(a.c);
          } else if a.Broadcast? {
            BroadcastEvent(a.c);
          } else {
            Take(a);
          }
        }
      }
    }

    /** EVENT: an event whose signature fails is refused and stored nowhere; any other is stored,
        reaches the receiver of every connection, and is acknowledged after that. */
    method HandleEvent(c: nat, note: Note, valid: bool, others: seq<Step>)
      requires Inv(State()) && c < |conns| && conns[c].handler.Ready?
      modifies this
      ensures Inv(State()) && c < |conns| && conns[c].handler.Ready?
      ensures conns[c].sent == old(conns[c].sent) + [Ok(note.id, valid)] && conns[c].subs == old(conns[c].subs)
      ensures !valid ==> notes == old(notes) && conns == old(conns)[c := conns[c]]
      ensures valid ==> old(notes) + [note] <= notes
      ensures valid ==> forall k :: 0 <= k < |conns| ==>
                          conns[k].live != [] && conns[k].live[|conns[k].live| - 1] == note
    {
      Take(Event(c, note, valid));
      if valid {
        OthersRun(c, others);
        BroadcastEvent(c);
      }
    }

    /** EVENT from the broadcast on: every connection's receiver gets the note, then OK is written. */
    method BroadcastEvent(c: nat)
      requires Inv(State()) && Enabled(State(), Broadcast(c))
      modifies this
      ensures State() == old(Apply(State(), Broadcast(c))) && Inv(State())
    {
      InvStep(State(), Broadcast(c));
      var note := conns[c].handler.note;
      ghost var before := conns;
      for k := 0 to |conns|
        invariant |conns| == |before| && notes == old(notes)
        invariant forall j :: 0 <= j < k ==> conns[j] == Received(before[j], note)
        invariant forall j :: k <= j < |conns| ==> conns[j] == before[j]
      {
        conns := conns[k := Received(conns[k], note)];
      }
      conns := conns[c := conns[c].(sent := conns[c].sent + [Ok(note.id, true)], handler := Ready)];
    }

    /** REQ: take the snapshot, write the stored matches one frame at a time while other connections
        store and broadcast, write EOSE, and only then open the subscription. The client is sent
        exactly the matches stored when the REQ arrived, in order, and nothing else in between;
        whatever was broadcast meanwhile waits in the receiver. */
    method HandleReq(c: nat, sub: string, filters: seq<Filter>, others: seq<seq<Step>>)
      requires Inv(State()) && c < |conns| && conns[c].handler.Ready?
      modifies this
      ensures Inv(State()) && c < |conns| && old(notes) <= notes
      ensures var stored, was, sent := Matching(filters, old(notes)), old(conns[c].sent), conns[c].sent;
              && |sent| == |was| + |stored| + 1 && sent[..|was|] == was && sent[|was| + |stored|] == Eose(sub)
              && forall k :: 0 <= k < |stored| ==> sent[|was| + k] == EventFrame(sub, stored[k])
      ensures conns[c].subs == old(conns[c].subs)[sub := filters] && conns[c].handler.Ready?
      ensures old(conns[c].live) <= conns[c].live && conns[c].lagged == old(conns[c].lagged)
    {
      ghost var before, was := conns[c], notes;
      Take(Req(c, sub, filters));
      var stored := conns[c].handler.stored;
      for k := 0 to |stored|
        invariant Inv(State()) && c < |conns| && was <= notes
        invariant conns[c].handler == Replaying(sub, filters, Matching(filters, was), k, |before.sent|, |was|)
        invariant |before.sent| <= |conns[c].sent| && conns[c].sent[..|before.sent|] == before.sent
        invariant conns[c].subs == before.subs && before.live <= conns[c].live && conns[c].lagged == before.lagged
      {
        OthersRun(c, if k < |others| then others[k] else []);
        Take(Replay(c));
      }
      OthersRun(c, if |stored| < |others| then others[|stored|] else []);
      ReqAnswer(State(), c);
      assert notes[..|was|] == was;
      Take(FinishReq(c));
      AnswerFrames(conns[c].sent, |before.sent|, sub, stored);
    }

    /** CLOSE: the subscription is closed; nothing else about the relay changes. */
    method HandleClose(c: nat, sub: string)
      requires Inv(State()) && c < |conns| && conns[c].handler.Ready?
      modifies this`conns
      ensures Inv(State()) && |conns| == |old(conns)| && Closed(conns[c], sub)
      ensures forall id :: id != sub ==> (id in conns[c].subs <==> id in old(conns[c].subs))
      ensures forall id :: id in conns[c].subs ==> conns[c].subs[id] == old(conns[c].subs)[id]
      ensures conns == old(conns)[c := old(conns[c]).(subs := conns[c].subs)]
    {
      InvStep(State(), Close(c, sub));
      conns := conns[c := conns[c].(subs := conns[c].subs - {sub})];
    }

    /** One live note: written once to every open subscription that wants it, in hash-map order, and to
        no other. */
    method DeliverLive(c: nat) returns (ghost order: seq<string>)
      requires Inv(State()) && c < |conns| && conns[c].handler.Ready? && conns[c].live != []
      modifies this`conns
      ensures |conns| == |old(conns)| && conns[c].live == old(conns[c].live)[1..]
      ensures forall sub :: FramesOf(conns[c].sent, sub)
                         == FramesOf(old(conns[c].sent), sub)
                            + if sub in old(conns[c].subs) && Matches(old(conns[c].subs)[sub], old(conns[c].live)[0])
                              then [old(conns[c].live)[0]] else []
      ensures old(Enabled(State(), Live(c, order)))
      ensures State() == old(Apply(State(), Live(c, order))) && Inv(State())
    {
      var n := conns[c];
      var note := n.live[0];
      var sent, left := n.sent, n.subs.Keys;
      order := [];
      while left != {}
        invariant left <= n.subs.Keys
        invariant forall id :: id in order <==> id in n.subs && id !in left && Matches(n.subs[id], note)
        invariant forall j, k :: 0 <= j < k < |order| ==> order[j] != order[k]
        invariant sent == n.sent + Frames(order, note)
        decreases left
      {
        var id :| id in left;
        if Matches(n.subs[id], note) {
          assert Frames(order + [id], note) == Frames(order, note) + [EventFrame(id, note)];
          order := order + [id];
          sent := sent + [EventFrame(id, note)];
        }
        left := left - {id};
      }
      InvStep(State(), Live(c, order));
      conns := conns[c := n.(sent := sent, live := n.live[1..])];
      forall sub ensures FramesOf(sent, sub) == FramesOf(n.sent, sub) + if sub in order then [note] else [] {
        LiveIsSentOnce(old(State()), c, order, sub);
      }
    }
  }
}
