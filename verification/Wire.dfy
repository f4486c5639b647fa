/** Events on the wire: crates/nostr-q-core/src/protocol.rs, tags, `build_*` and `parse_*`. Signing
    assigns an id, an author and a creation time; the content string carries the envelope JSON. */
module Wire {
  import opened Base
  import opened Claims

  const KIND_MESSAGE := 4620
  const KIND_CLAIM := 4621
  const KIND_ACK := 4622
  const KIND_NACK := 4623
  const KIND_DLQ := 4624

  const U32_MAX: int := 0xFFFF_FFFF
  const I64_MAX: int := 0x7FFF_FFFF_FFFF_FFFF
  const I64_MIN: int := -0x8000_0000_0000_0000

  // ---- Decimal numbers ---------------------------------------------------

  function Digit(d: nat): char
    requires d < 10
  {
    '0' + d as char
  }

  function ShowNat(n: nat): string {
    if n < 10 then [Digit(n)] else ShowNat(n / 10) + [Digit(n % 10)]
  }

  function ShowInt(i: int): string {
    if i < 0 then "-" + ShowNat(-i) else ShowNat(i)
  }

  /** A non-empty run of decimal digits. */
  function ParseDigits(s: string): Option<nat> {
    if s == [] then None
    else
      var c := s[|s| - 1];
      if !('0' <= c <= '9') then None
      else if |s| == 1 then Some((c - '0') as nat)
      else
        var high := ParseDigits(s[..|s| - 1]);
        if high.None? then None else Some(high.value * 10 + (c - '0') as nat)
  }

  /** `str::parse::<u32>`: an optional plus sign, then digits, within 32 bits. */
  function ParseU32(s: string): Option<nat> {
    var n := ParseDigits(if s != [] && s[0] == '+' then s[1..] else s);
    if n.Some? && n.value <= U32_MAX then n else None
  }

  /** `str::parse::<i64>` */
  function ParseI64(s: string): Option<int> {
    var negative := s != [] && s[0] == '-';
    var n := ParseDigits(if s != [] && (s[0] == '+' || s[0] == '-') then s[1..] else s);
    if n.None? then None
    else
      var size: int := n.value;
      var i := if negative then -size else size;
      if I64_MIN <= i <= I64_MAX then Some(i) else None
  }

  lemma {:induction false} ShowNatParses(n: nat)
    ensures ParseDigits(ShowNat(n)) == Some(n)
    ensures ShowNat(n) != [] && '0' <= ShowNat(n)[0] <= '9'
  {
    if n >= 10 {
      ShowNatParses(n / 10);
      var s := ShowNat(n / 10);
      assert (s + [Digit(n % 10)])[..|s|] == s;
    }
  }

  /** A text is read as digits exactly when it is non-empty and holds nothing else. */
  lemma {:induction false} DigitsExactly(s: string)
    ensures ParseDigits(s).Some? <==> s != [] && forall k :: 0 <= k < |s| ==> '0' <= s[k] <= '9'
  {
    if |s| > 1 {
      DigitsExactly(s[..|s| - 1]);
    }
  }

  /** An attempt survives the wire exactly when it fits 32 bits; a plus sign changes nothing. */
  lemma AttemptsSurvive(n: nat)
    ensures ParseU32(ShowNat(n)) == ParseU32("+" + ShowNat(n)) == if n <= 0xFFFF_FFFF then Some(n) else None
  {
    ShowNatParses(n);
    assert ("+" + ShowNat(n))[1..] == ShowNat(n);
  }

  /** A time survives the wire exactly when it fits 64 bits; a plus sign changes nothing. */
  lemma TimesSurvive(i: int)
    ensures ParseI64(ShowInt(i))
         == if -0x8000_0000_0000_0000 <= i <= 0x7FFF_FFFF_FFFF_FFFF then Some(i) else None
    ensures i >= 0 ==> ParseI64("+" + ShowInt(i)) == ParseI64(ShowInt(i))
  {
    assert ("+" + ShowInt(i))[1..] == ShowInt(i);
    ShowNatParses(if i < 0 then -i else i);
    if i < 0 {
      assert ("-" + ShowNat(-i))[1..] == ShowNat(-i);
    }
  }

  // ---- Tags --------------------------------------------------------------

  type Tag = seq<string>

  datatype WireEvent = WireEvent(id: nat, author: nat, createdAt: int, kind: nat, content: string, tags: seq<Tag>)

  datatype ParseError = MissingTag(name: string) | BadPayload

  datatype Parsed<+T> = Good(value: T) | Bad(error: ParseError)

  /** First value among the tags of that name; a tag of the name without a value is passed over. */
  function TagValue(tags: seq<Tag>, name: string): Option<string> {
    if tags == [] then None
    else if |tags[0]| >= 2 && tags[0][0] == name then Some(tags[0][1])
    else TagValue(tags[1..], name)
  }

  lemma {:induction false} TagValueFirst(tags: seq<Tag>, name: string, k: nat)
    requires k < |tags| && |tags[k]| >= 2 && tags[k][0] == name
    requires forall j :: 0 <= j < k ==> |tags[j]| < 2 || tags[j][0] != name
    ensures TagValue(tags, name) == Some(tags[k][1])
  {
    if k > 0 {
      TagValueFirst(tags[1..], name, k - 1);
    }
  }

  lemma {:induction false} TagValueAbsent(tags: seq<Tag>, name: string)
    ensures TagValue(tags, name).None? <==> forall j :: 0 <= j < |tags| ==> |tags[j]| < 2 || tags[j][0] != name
  {
    if tags != [] {
      TagValueAbsent(tags[1..], name);
      assert forall j :: 0 < j < |tags| ==> tags[j] == tags[1..][j - 1];
    }
  }

  /** Attempt carried by an event, 0 when absent or unreadable. */
  function EventAttempt(e: WireEvent): nat {
    var v := TagValue(e.tags, "attempt");
    if v.None? || ParseU32(v.value).None? then 0 else ParseU32(v.value).value
  }

  function OptionalI64(e: WireEvent, name: string): Option<int> {
    var v := TagValue(e.tags, name);
    if v.None? then None else ParseI64(v.value)
  }

  // ---- Messages ----------------------------------------------------------

  datatype Message = Message(mid: string, queue: string, traceId: string, attempt: nat, idem: Option<string>,
                             envelope: string, notBefore: Option<int>, expiresAt: Option<int>, replyTo: Option<string>)

  /** What signing adds. */
  datatype Signature = Signature(id: nat, author: nat, createdAt: int)

  function Signed(sig: Signature, kind: nat, content: string, tags: seq<Tag>): WireEvent {
    WireEvent(sig.id, sig.author, sig.createdAt, kind, content, tags)
  }

  function OptionalTag(name: string, value: Option<string>): seq<Tag> {
    if value.Some? then [[name, value.value]] else []
  }

  function ShowOption(i: Option<int>): Option<string> {
    if i.Some? then Some(ShowInt(i.value)) else None
  }

  function MessageTags(mode: string, m: Message): seq<Tag> {
    [["t", m.queue], ["q", m.queue], ["mode", mode], ["mid", m.mid], ["trace", m.traceId],
     ["attempt", ShowNat(m.attempt)]]
    + OptionalTag("idem", m.idem) + OptionalTag("nbf", ShowOption(m.notBefore))
    + OptionalTag("exp", ShowOption(m.expiresAt)) + OptionalTag("reply", m.replyTo)
  }

  method BuildMessageEvent(sig: Signature, mode: string, m: Message) returns (e: WireEvent)
    ensures e == Signed(sig, KIND_MESSAGE, m.envelope, MessageTags(mode, m))
  {
    var tags := [["t", m.queue], ["q", m.queue], ["mode", mode], ["mid", m.mid], ["trace", m.traceId],
                 ["attempt", ShowNat(m.attempt)]];
    if m.idem.Some? {
      tags := tags + [["idem", m.idem.value]];
    }
    if m.notBefore.Some? {
      tags := tags + [["nbf", ShowInt(m.notBefore.value)]];
    }
    if m.expiresAt.Some? {
      tags := tags + [["exp", ShowInt(m.expiresAt.value)]];
    }
    if m.replyTo.Some? {
      tags := tags + [["reply", m.replyTo.value]];
    }
    e := Signed(sig, KIND_MESSAGE, m.envelope, tags);
  }

  /** `json` reads a content string as an envelope and gives the text `to_json` writes for it, or
      nothing when it is not an envelope. The content is looked at before the tags. */
  function ParseMessageEvent(e: WireEvent, json: string -> Option<string>): Parsed<Message> {
    var envelope := json(e.content);
    var mid, queue, trace := TagValue(e.tags, "mid"), TagValue(e.tags, "t"), TagValue(e.tags, "trace");
    if envelope.None? then Bad(BadPayload)
    else if mid.None? then Bad(MissingTag("mid"))
    else if queue.None? then Bad(MissingTag("t"))
    else if trace.None? then Bad(MissingTag("trace"))
    else Good(Message(mid.value, queue.value, trace.value, EventAttempt(e), TagValue(e.tags, "idem"), envelope.value,
                      OptionalI64(e, "nbf"), OptionalI64(e, "exp"), TagValue(e.tags, "reply")))
  }

  ghost predicate HasTag(e: WireEvent, name: string) {
    exists k :: 0 <= k < |e.tags| && |e.tags[k]| >= 2 && e.tags[k][0] == name
  }

  /** An event is malformed exactly when its content is no envelope or one of three tags is missing, and
      the first of these in that order is reported. An unreadable number in any other tag is no error. */
  lemma MalformedExactly(e: WireEvent, json: string -> Option<string>)
    ensures var parsed := ParseMessageEvent(e, json);
            && (parsed.Bad?
                <==> json(e.content).None? || !HasTag(e, "mid") || !HasTag(e, "t") || !HasTag(e, "trace"))
            && (parsed.Bad? ==>
                  parsed.error == if json(e.content).None? then BadPayload
                                  else if !HasTag(e, "mid") then MissingTag("mid")
                                  else if !HasTag(e, "t") then MissingTag("t") else MissingTag("trace"))
  {
    TagValueAbsent(e.tags, "mid");
    TagValueAbsent(e.tags, "t");
    TagValueAbsent(e.tags, "trace");
  }

  /** Tag `k` is the first of its name that has a value. */
  ghost predicate FirstValued(e: WireEvent, name: string, k: nat) {
    && k < |e.tags| && |e.tags[k]| >= 2 && e.tags[k][0] == name
    && forall j :: 0 <= j < k ==> |e.tags[j]| < 2 || e.tags[j][0] != name
  }

  /** An optional time is that of the first valued tag of its name, and absent when there is no such tag or
      its text is no 64-bit number. */
  lemma OptionalTimeRead(e: WireEvent, name: string, k: nat)
    ensures !HasTag(e, name) ==> OptionalI64(e, name) == None
    ensures FirstValued(e, name, k) ==> OptionalI64(e, name) == ParseI64(e.tags[k][1])
  {
    TagValueAbsent(e.tags, name);
    if FirstValued(e, name, k) {
      TagValueFirst(e.tags, name, k);
    }
  }

  predicate InRange(m: Message) {
    && m.attempt <= U32_MAX
    && (m.notBefore.Some? ==> I64_MIN <= m.notBefore.value <= I64_MAX)
    && (m.expiresAt.Some? ==> I64_MIN <= m.expiresAt.value <= I64_MAX)
  }

  lemma {:induction false} TagValueSkips(front: seq<Tag>, back: seq<Tag>, name: string)
    ensures TagValue(front + back, name)
         == if TagValue(front, name).Some? then TagValue(front, name) else TagValue(back, name)
  {
    if front == [] {
      assert front + back == back;
    } else {
      TagValueSkips(front[1..], back, name);
      assert (front + back)[1..] == front[1..] + back;
    }
  }

  /** Looking up one of the optional tags in a message's tag list. */
  lemma OptionalTagFound(mode: string, m: Message, name: string)
    requires name in ["idem", "nbf", "exp", "reply"]
    ensures TagValue(MessageTags(mode, m), name)
         == match name
            case "idem" => m.idem
            case "nbf" => ShowOption(m.notBefore)
            case "exp" => ShowOption(m.expiresAt)
            case _ => m.replyTo
  {
    var base := [["t", m.queue], ["q", m.queue], ["mode", mode], ["mid", m.mid], ["trace", m.traceId],
                 ["attempt", ShowNat(m.attempt)]];
    var idem, nbf := OptionalTag("idem", m.idem), OptionalTag("nbf", ShowOption(m.notBefore));
    var exp, reply := OptionalTag("exp", ShowOption(m.expiresAt)), OptionalTag("reply", m.replyTo);
    TagValueAbsent(base, name);
    TagValueSkips(base + idem + nbf + exp, reply, name);
    TagValueSkips(base + idem + nbf, exp, name);
    TagValueSkips(base + idem, nbf, name);
    TagValueSkips(base, idem, name);
  }

  /** What relays and readers of other implementations filter a message by. */
  lemma MessageIsIndexed(sig: Signature, mode: string, m: Message)
    ensures var e := Signed(sig, KIND_MESSAGE, m.envelope, MessageTags(mode, m));
            && e.kind == 4620 && e.id == sig.id && e.author == sig.author && e.createdAt == sig.createdAt
            && TagValue(e.tags, "t") == Some(m.queue) && TagValue(e.tags, "q") == Some(m.queue)
            && TagValue(e.tags, "mode") == Some(mode)
  {
    var tags := MessageTags(mode, m);
    TagValueFirst(tags, "t", 0);
    TagValueFirst(tags, "q", 1);
    TagValueFirst(tags, "mode", 2);
  }

  /** Parsing a built message event gives back the message, with every optional field intact or
      absent as it was. */
  lemma MessageRoundTrip(sig: Signature, mode: string, m: Message, json: string -> Option<string>)
    requires InRange(m) && json(m.envelope) == Some(m.envelope)
    ensures ParseMessageEvent(Signed(sig, KIND_MESSAGE, m.envelope, MessageTags(mode, m)), json) == Good(m)
  {
    var tags := MessageTags(mode, m);
    TagValueFirst(tags, "t", 0);
    TagValueFirst(tags, "mid", 3);
    TagValueFirst(tags, "trace", 4);
    TagValueFirst(tags, "attempt", 5);
    OptionalTagFound(mode, m, "idem");
    OptionalTagFound(mode, m, "nbf");
    OptionalTagFound(mode, m, "exp");
    OptionalTagFound(mode, m, "reply");
    AttemptsSurvive(m.attempt);
    TimesSurvive(if m.notBefore.Some? then m.notBefore.value else 0);
    TimesSurvive(if m.expiresAt.Some? then m.expiresAt.value else 0);
  }

  // ---- Lifecycle events --------------------------------------------------

  datatype Subject = Subject(eventId: string, queue: string, mid: string, traceId: string)

  function LifecycleTags(on: Subject): seq<Tag> {
    [["e", on.eventId], ["t", on.queue], ["mid", on.mid], ["trace", on.traceId]]
  }

  function BuildClaimEvent(sig: Signature, on: Subject, leaseExp: int, attempt: nat): WireEvent {
    Signed(sig, KIND_CLAIM, "", LifecycleTags(on) + [["lease_exp", ShowInt(leaseExp)], ["attempt", ShowNat(attempt)]])
  }

  function BuildAckEvent(sig: Signature, on: Subject): WireEvent {
    Signed(sig, KIND_ACK, "", LifecycleTags(on))
  }

  function BuildNackEvent(sig: Signature, on: Subject, attempt: nat, reason: string): WireEvent {
    Signed(sig, KIND_NACK, "", LifecycleTags(on) + [["attempt", ShowNat(attempt)], ["reason", reason]])
  }

  function BuildDlqEvent(sig: Signature, on: Subject, attempt: nat, reason: string): WireEvent {
    Signed(sig, KIND_DLQ, "", LifecycleTags(on) + [["attempt", ShowNat(attempt)], ["reason", reason]])
  }

  /** How relays find lifecycle events: each kind has its own number, and every event refers to the
      message's event and carries its queue, mid and trace. */
  lemma LifecycleEventsRefer(sig: Signature, on: Subject, leaseExp: int, attempt: nat, reason: string, e: WireEvent)
    requires e in {BuildClaimEvent(sig, on, leaseExp, attempt), BuildAckEvent(sig, on),
                   BuildNackEvent(sig, on, attempt, reason), BuildDlqEvent(sig, on, attempt, reason)}
    ensures e.id == sig.id && e.author == sig.author && e.createdAt == sig.createdAt
    ensures TagValue(e.tags, "e") == Some(on.eventId) && TagValue(e.tags, "t") == Some(on.queue)
    ensures TagValue(e.tags, "mid") == Some(on.mid) && TagValue(e.tags, "trace") == Some(on.traceId)
    ensures BuildClaimEvent(sig, on, leaseExp, attempt).kind == 4621 && BuildAckEvent(sig, on).kind == 4622
    ensures BuildNackEvent(sig, on, attempt, reason).kind == 4623
    ensures BuildDlqEvent(sig, on, attempt, reason).kind == 4624
  {
    TagValueFirst(e.tags, "e", 0);
    TagValueFirst(e.tags, "t", 1);
    TagValueFirst(e.tags, "mid", 2);
    TagValueFirst(e.tags, "trace", 3);
  }

  /** Nacks and dead letters say why. */
  lemma ReasonsAreCarried(sig: Signature, on: Subject, attempt: nat, reason: string)
    ensures TagValue(BuildNackEvent(sig, on, attempt, reason).tags, "reason") == Some(reason)
    ensures TagValue(BuildDlqEvent(sig, on, attempt, reason).tags, "reason") == Some(reason)
  {
    TagValueFirst(BuildNackEvent(sig, on, attempt, reason).tags, "reason", 5);
    TagValueFirst(BuildDlqEvent(sig, on, attempt, reason).tags, "reason", 5);
  }

  function ParseClaimEvent(e: WireEvent): Parsed<ClaimInfo> {
    var lease := TagValue(e.tags, "lease_exp");
    if lease.None? then Bad(MissingTag("lease_exp"))
    else if ParseI64(lease.value).None? then Bad(BadPayload)
    else Good(ClaimInfo(e.author, e.id, e.createdAt, ParseI64(lease.value).value, EventAttempt(e)))
  }

  /** A claim is unreadable, and then counts for nobody, exactly when its lease end is missing or no 64-bit
      number; otherwise it says who made it, when, until when and for which generation. */
  lemma ClaimMalformedExactly(e: WireEvent, k: nat)
    ensures !HasTag(e, "lease_exp") ==> ParseClaimEvent(e) == Bad(MissingTag("lease_exp"))
    ensures FirstValued(e, "lease_exp", k) ==>
              ParseClaimEvent(e) == match ParseI64(e.tags[k][1])
                                    case None => Bad(BadPayload)
                                    case Some(t) => Good(ClaimInfo(e.author, e.id, e.createdAt, t, EventAttempt(e)))
  {
    TagValueAbsent(e.tags, "lease_exp");
    if FirstValued(e, "lease_exp", k) {
      TagValueFirst(e.tags, "lease_exp", k);
    }
  }

  /** A claim event read back is the claim that was made: claimer, id, time, lease and attempt. */
  lemma ClaimRoundTrip(sig: Signature, on: Subject, leaseExp: int, attempt: nat)
    requires I64_MIN <= leaseExp <= I64_MAX && attempt <= U32_MAX
    ensures ParseClaimEvent(BuildClaimEvent(sig, on, leaseExp, attempt))
         == Good(ClaimInfo(sig.author, sig.id, sig.createdAt, leaseExp, attempt))
  {
    var tags := BuildClaimEvent(sig, on, leaseExp, attempt).tags;
    TagValueFirst(tags, "lease_exp", 4);
    TagValueFirst(tags, "attempt", 5);
    AttemptsSurvive(attempt);
    TimesSurvive(leaseExp);
  }

  /** The attempt of any event is that of its first valued attempt tag, and 0 when that tag's text is
      no 32-bit number or there is no such tag. */
  lemma AttemptRead(e: WireEvent, k: nat)
    ensures !HasTag(e, "attempt") ==> EventAttempt(e) == 0
    ensures FirstValued(e, "attempt", k) ==>
              EventAttempt(e) == match ParseU32(e.tags[k][1]) case Some(n) => n case None => 0
  {
    TagValueAbsent(e.tags, "attempt");
    if FirstValued(e, "attempt", k) {
      TagValueFirst(e.tags, "attempt", k);
    }
  }

  /** Nack and dlq events carry their generation, and an ack carries none. */
  lemma AttemptsRoundTrip(sig: Signature, on: Subject, attempt: nat, reason: string)
    requires attempt <= U32_MAX
    ensures EventAttempt(BuildNackEvent(sig, on, attempt, reason)) == attempt
    ensures EventAttempt(BuildDlqEvent(sig, on, attempt, reason)) == attempt
    ensures EventAttempt(BuildAckEvent(sig, on)) == 0
  {
    AttemptRead(BuildNackEvent(sig, on, attempt, reason), 4);
    AttemptRead(BuildDlqEvent(sig, on, attempt, reason), 4);
    AttemptsSurvive(attempt);
    TagValueAbsent(BuildAckEvent(sig, on).tags, "attempt");
  }
}
