/**
  The other six group wire formats, version 1: application context, invitation
  bootstrap, acceptance and revocation, group payload and logical-send intent
  (sections 6 to 11 of spec/group-wire-formats.md).
 */
module WireFormats {
  import opened Bytes
  import opened Wire

  // Application context.

  datatype Context = Context(place: Place, sender: Member, recipient: Member, sequence: u64, payload: bytes)

  predicate ContextFits(v: Context) { Fits(v.sender) && Fits(v.recipient) && Fits32(v.payload) }

  function PutContextTail(v: Context): bytes
    requires Fits32(v.payload)
  {
    PutU64(v.sequence, PutLp32(v.payload, []))
  }

  function ContextLayout(d: Domains, v: Context): bytes
    requires ContextFits(v)
  {
    d.context + PutPlace(v.place, PutParties(v.sender, v.recipient, PutContextTail(v)))
  }

  function PutParties(sender: Member, recipient: Member, tail: bytes): bytes
    requires Fits(sender) && Fits(recipient)
  {
    PutMember(sender, PutMember(recipient, tail))
  }

  function TakeParties(b: bytes): Parse<(Member, Member), Reason> {
    var (sender, rest) :- TakeMember(b);
    var (recipient, rest) :- TakeMember(rest);
    Got((sender, recipient), rest)
  }

  lemma PartiesRead(sender: Member, recipient: Member, tail: bytes)
    requires Fits(sender) && Fits(recipient)
    ensures TakeParties(PutParties(sender, recipient, tail))
            == Unless(Or(SizeCheck(sender), SizeCheck(recipient)), (sender, recipient), tail)
  {
    MemberReads(sender, PutMember(recipient, tail));
    MemberReads(recipient, tail);
  }

  lemma PartiesOneSpelling(b: bytes)
    ensures var r := TakeParties(b);
            r.Got? ==> Fits(r.value.0) && Fits(r.value.1) && b == PutParties(r.value.0, r.value.1, r.rest)
  {
    MemberOneSpelling(b);
    var s := TakeMember(b);
    if s.Got? { MemberOneSpelling(s.rest); }
  }

  lemma PartiesExtend(b: bytes, more: bytes)
    ensures Extends(Malformed, TakeParties(b), TakeParties(b + more), more)
  {
    MemberExtends(b, more);
    var s := TakeMember(b);
    if s.Got? { MemberExtends(s.rest, more); }
  }

  function TakeMessage(b: bytes): Parse<(u64, bytes), Reason> {
    var (sequence, rest) :- TakeU64(b, Malformed);
    var (payload, rest) :- TakeLp32(rest, Malformed);
    Got((sequence, payload), rest)
  }

  function TakeContext(d: Domains, b: bytes): Parse<Context, Reason> {
    var (_, rest) :- TakeDomain(b, d.context);
    var (place, rest) :- TakePlace(rest);
    var (parties, rest) :- TakeParties(rest);
    var (message, rest) :- TakeMessage(rest);
    Got(Context(place, parties.0, parties.1, message.0, message.1), rest)
  }

  function ContextLen(v: Context): nat {
    120 + |v.payload| + |v.sender.identity| + |v.sender.device| + |v.recipient.identity| + |v.recipient.device|
  }

  function ValidateContext(v: Context): Option<Reason> {
    if v.place.revision == RESERVED_REVISION then Some(ReservedRevision)
    else if |v.payload| > MAX_PAYLOAD then Some(PayloadTooLarge)
    else if SizeCheck(v.sender).Some? then SizeCheck(v.sender)
    else if SizeCheck(v.recipient).Some? then SizeCheck(v.recipient)
    else if ContextLen(v) > MAX_CONTEXT then Some(ContextTooLarge)
    else None
  }

  function DecodeContext(d: Domains, b: bytes): Result<Context> {
    if |b| > MAX_CONTEXT then Err(ContextTooLarge) else Finish(TakeContext(d, b), ValidateContext)
  }

  function EncodeContext(d: Domains, v: Context): Result<bytes>
    requires ContextFits(v)
  {
    Refused(ValidateContext(v), ContextLayout(d, v))
  }

  lemma MessageReads(v: Context)
    requires Fits32(v.payload)
    ensures TakeMessage(PutContextTail(v)) == Got((v.sequence, v.payload), [])
  {
    TakeU64App(v.sequence, PutLp32(v.payload, []), Malformed);
    TakeLp32App(v.payload, [], Malformed);
  }

  lemma MessageOneSpelling(b: bytes)
    ensures var r := TakeMessage(b); r.Got? ==> Fits32(r.value.1) && b == PutU64(r.value.0, PutLp32(r.value.1, r.rest))
  {
    TakeU64Canonical(b, Malformed);
    var s := TakeU64(b, Malformed);
    if s.Got? { TakeLp32Canonical(s.rest, Malformed); }
  }

  lemma MessageExtends(b: bytes, more: bytes)
    ensures Extends(Malformed, TakeMessage(b), TakeMessage(b + more), more)
  {
    TakeU64Extends(b, more, Malformed);
    var s := TakeU64(b, Malformed);
    if s.Got? { TakeLp32Extends(s.rest, more, Malformed); }
  }

  lemma ContextReads(d: Domains, v: Context)
    requires ContextFits(v)
    ensures TakeContext(d, ContextLayout(d, v)) == Unless(Or(SizeCheck(v.sender), SizeCheck(v.recipient)), v, [])
  {
    var t1 := PutContextTail(v);
    var t2 := PutParties(v.sender, v.recipient, t1);
    DomainReads(d.context, PutPlace(v.place, t2));
    PlaceReads(v.place, t2);
    PartiesRead(v.sender, v.recipient, t1);
    MessageReads(v);
  }

  lemma ContextOneSpelling(d: Domains, b: bytes)
    ensures var r := TakeContext(d, b);
            r.Got? && r.rest == [] ==> ContextFits(r.value) && b == ContextLayout(d, r.value)
  {
    var h := TakeDomain(b, d.context);
    DomainOneSpelling(b, d.context);
    if h.Got? {
      var p := TakePlace(h.rest);
      PlaceOneSpelling(h.rest);
      if p.Got? {
        var s := TakeParties(p.rest);
        PartiesOneSpelling(p.rest);
        if s.Got? { MessageOneSpelling(s.rest); }
      }
    }
  }

  lemma ContextExtends(d: Domains, b: bytes, more: bytes)
    ensures Extends(Malformed, TakeContext(d, b), TakeContext(d, b + more), more)
  {
    var h := TakeDomain(b, d.context);
    DomainExtends(b, more, d.context);
    if h.Got? {
      var p := TakePlace(h.rest);
      PlaceExtends(h.rest, more);
      if p.Got? {
        var s := TakeParties(p.rest);
        PartiesExtend(p.rest, more);
        if s.Got? { MessageExtends(s.rest, more); }
      }
    }
  }

  lemma ContextLength(d: Domains, v: Context)
    requires Lengths(d) && ContextFits(v)
    ensures |ContextLayout(d, v)| == ContextLen(v)
  {
    var t1 := PutContextTail(v);
    PutLp32Length(v.payload, []);
    PutMemberLength(v.recipient, t1);
    PutMemberLength(v.sender, PutMember(v.recipient, t1));
    PutPlaceLength(v.place, PutMember(v.sender, PutMember(v.recipient, t1)));
  }

  /** A context that passes every other check is never too large. */
  lemma ContextIsNeverTooLarge(v: Context)
    ensures ValidateContext(v) != Some(ContextTooLarge)
    ensures ValidateContext(v).None? ==> ContextLen(v) <= 1784
  {
  }

  lemma ContextFinishes(d: Domains, v: Context, b: bytes)
    requires TakeContext(d, b) == Unless(Or(SizeCheck(v.sender), SizeCheck(v.recipient)), v, []) && |b| == ContextLen(v)
    ensures DecodeContext(d, b).Ok? <==> ValidateContext(v).None?
    ensures ValidateContext(v).None? ==> DecodeContext(d, b) == Ok(v)
  {
  }

  lemma ContextDecodesLayout(d: Domains, v: Context)
    requires Lengths(d) && ContextFits(v)
    ensures DecodeContext(d, ContextLayout(d, v)).Ok? <==> EncodeContext(d, v).Ok?
    ensures EncodeContext(d, v).Ok? ==> DecodeContext(d, ContextLayout(d, v)) == Ok(v)
  {
    ContextReads(d, v);
    ContextLength(d, v);
    ContextFinishes(d, v, ContextLayout(d, v));
  }

  lemma ContextAccepted(d: Domains, b: bytes)
    requires DecodeContext(d, b).Ok?
    ensures var v := DecodeContext(d, b).value; ContextFits(v) && EncodeContext(d, v) == Ok(b)
  {
    ContextOneSpelling(d, b);
  }

  lemma ContextPrefix(d: Domains, b: bytes, n: nat)
    requires DecodeContext(d, b).Ok? && n < |b|
    ensures DecodeContext(d, b[..n]) == Err(Malformed)
  {
    ContextExtends(d, b[..n], b[n..]);
    PrefixIsShort(x => TakeContext(d, x), Malformed, b, n);
  }

  // Invitation acceptance and revocation.

  datatype Ack = Ack(group: id16, invitation: id16, revision: u64, digest: digest32)

  function AckLayout(domain: bytes, v: Ack): bytes {
    domain + (v.group + (v.invitation + PutU64(v.revision, v.digest)))
  }

  function TakeAck(domain: bytes, b: bytes): Parse<Ack, Reason> {
    var (_, rest) :- TakeDomain(b, domain);
    var (group, rest) :- Take(rest, GROUP_ID_LEN, Malformed);
    var (invitation, rest) :- Take(rest, INVITATION_ID_LEN, Malformed);
    var (revision, rest) :- TakeU64(rest, Malformed);
    var (digest, rest) :- Take(rest, DIGEST_LEN, Malformed);
    Got(Ack(group, invitation, revision, digest), rest)
  }

  function AckCheck(v: Ack): Option<Reason> { if v.revision == RESERVED_REVISION then Some(ReservedRevision) else None }

  function DecodeAck(domain: bytes, b: bytes): Result<Ack> {
    Finish(TakeAck(domain, b), AckCheck)
  }

  function EncodeAck(domain: bytes, v: Ack): Result<bytes> { Refused(AckCheck(v), AckLayout(domain, v)) }

  lemma AckReads(domain: bytes, v: Ack)
    ensures TakeAck(domain, AckLayout(domain, v)) == Got(v, [])
  {
    var t1 := PutU64(v.revision, v.digest);
    DomainReads(domain, v.group + (v.invitation + t1));
    TakeApp(v.group, v.invitation + t1, Malformed);
    TakeApp(v.invitation, t1, Malformed);
    TakeU64App(v.revision, v.digest, Malformed);
    assert v.digest + [] == v.digest;
    TakeApp(v.digest, [], Malformed);
  }

  lemma AckOneSpelling(domain: bytes, b: bytes)
    ensures var r := TakeAck(domain, b); r.Got? && r.rest == [] ==> b == AckLayout(domain, r.value)
  {
    var r := TakeAck(domain, b);
    if r.Got? && r.rest == [] {
      var h := TakeDomain(b, domain);
      var g := Take(h.rest, GROUP_ID_LEN, Malformed);
      var i := Take(g.rest, INVITATION_ID_LEN, Malformed);
      var v := TakeU64(i.rest, Malformed);
      assert v.rest == r.value.digest by {
        TakeCanonical(v.rest, DIGEST_LEN, Malformed);
        assert r.value.digest + [] == r.value.digest;
      }
      TakeU64Canonical(i.rest, Malformed);
      TakeCanonical(g.rest, INVITATION_ID_LEN, Malformed);
      TakeCanonical(h.rest, GROUP_ID_LEN, Malformed);
      DomainOneSpelling(b, domain);
    }
  }

  lemma AckExtends(domain: bytes, b: bytes, more: bytes)
    ensures Extends(Malformed, TakeAck(domain, b), TakeAck(domain, b + more), more)
  {
    var h := TakeDomain(b, domain);
    DomainExtends(b, more, domain);
    if h.Got? {
      var g := Take(h.rest, GROUP_ID_LEN, Malformed);
      TakeExtends(h.rest, more, GROUP_ID_LEN, Malformed);
      if g.Got? {
        var i := Take(g.rest, INVITATION_ID_LEN, Malformed);
        TakeExtends(g.rest, more, INVITATION_ID_LEN, Malformed);
        if i.Got? {
          var v := TakeU64(i.rest, Malformed);
          TakeU64Extends(i.rest, more, Malformed);
          if v.Got? { TakeExtends(v.rest, more, DIGEST_LEN, Malformed); }
        }
      }
    }
  }

  lemma AckLength(domain: bytes, v: Ack)
    ensures |AckLayout(domain, v)| == |domain| + 72
  {
  }

  /** The decoder refuses an acknowledgement's layout exactly as the encoder refuses the value, for the same reason. */
  lemma AckDecodesLayout(domain: bytes, v: Ack)
    ensures DecodeAck(domain, AckLayout(domain, v))
            == (match EncodeAck(domain, v) case Ok(_) => Ok(v) case Err(e) => Err(e))
  {
    AckReads(domain, v);
  }

  lemma AckAccepted(domain: bytes, b: bytes)
    requires DecodeAck(domain, b).Ok?
    ensures EncodeAck(domain, DecodeAck(domain, b).value) == Ok(b)
  {
    AckOneSpelling(domain, b);
  }

  lemma AckPrefix(domain: bytes, b: bytes, n: nat)
    requires DecodeAck(domain, b).Ok? && n < |b|
    ensures DecodeAck(domain, b[..n]) == Err(Malformed)
  {
    AckExtends(domain, b[..n], b[n..]);
    PrefixIsShort(x => TakeAck(domain, x), Malformed, b, n);
  }

  // Logical-send intent.

  datatype Intent = Intent(group: id16, revision: u64, sender: Member, sequence: u64, digest: digest32, payload: bytes,
    recipients: seq<Member>)

  predicate IntentFits(v: Intent) { Fits(v.sender) && Fits32(v.payload) && AllFit(v.recipients) }

  function PutSender(v: Intent, tail: bytes): bytes
    requires Fits(v.sender)
  {
    PutLp32(v.group, PutU64(v.revision, PutMember(v.sender, tail)))
  }

  function PutContent(v: Intent, tail: bytes): bytes
    requires Fits32(v.payload)
  {
    PutU64(v.sequence, PutLp32(v.digest, PutLp32(v.payload, tail)))
  }

  function IntentLayout(d: Domains, v: Intent): bytes
    requires IntentFits(v)
  {
    d.intent + PutSender(v, PutContent(v, PutMembers(v.recipients, [])))
  }

  function TakeSender(b: bytes): (r: Parse<(bytes, u64, Member), Reason>)
    ensures r.Got? ==> |r.value.0| == 16
  {
    var (group, rest) :- TakeFixed(b, GROUP_ID_LEN);
    var (revision, rest) :- TakeU64(rest, Malformed);
    var (sender, rest) :- TakeMember(rest);
    Got((group, revision, sender), rest)
  }

  function PayloadCheck(payload: bytes): Option<Reason> {
    if |payload| > MAX_PAYLOAD then Some(PayloadTooLarge) else None
  }

  function TakeContent(b: bytes): (r: Parse<(u64, bytes, bytes), Reason>)
    ensures r.Got? ==> |r.value.1| == 32
  {
    var (sequence, rest) :- TakeU64(b, Malformed);
    var (digest, rest) :- TakeFixed(rest, DIGEST_LEN);
    var (payload, rest) :- TakeLp32(rest, Malformed);
    Unless(PayloadCheck(payload), (sequence, digest, payload), rest)
  }

  function TakeIntent(d: Domains, b: bytes): Parse<Intent, Reason> {
    var (_, rest) :- TakeDomain(b, d.intent);
    var (s, rest) :- TakeSender(rest);
    var (c, rest) :- TakeContent(rest);
    var (recipients, rest) :- TakeMembers(rest, false);
    Got(Intent(s.0, s.1, s.2, c.0, c.1, c.2, recipients), rest)
  }

  function ReservedCheck(revision: u64): Option<Reason> {
    if revision == RESERVED_REVISION then Some(ReservedRevision) else None
  }

  /** What the decoder checks while it reads. */
  function WhileReading(v: Intent): Option<Reason> {
    Or(SizeCheck(v.sender), Or(PayloadCheck(v.payload),
      Or(CountCheck(|v.recipients|, false), FirstTooLarge(v.recipients))))
  }

  /** What the decoder checks once the value is read. */
  function AfterReading(v: Intent): Option<Reason> { Or(OrderCheck(v.recipients), ReservedCheck(v.revision)) }

  function DecodeIntent(d: Domains, b: bytes): Result<Intent> {
    Finish(TakeIntent(d, b), AfterReading)
  }

  /** The encoder's checks, in its order. */
  function IntentCheck(v: Intent): Option<Reason> {
    if SizeCheck(v.sender).Some? then SizeCheck(v.sender)
    else if |v.payload| > MAX_PAYLOAD then Some(PayloadTooLarge)
    else if |v.recipients| == 0 then Some(EmptyRecipients)
    else if |v.recipients| > MAX_MEMBERS then Some(TooManyMembers)
    else if FirstTooLarge(v.recipients).Some? then FirstTooLarge(v.recipients)
    else if OrderCheck(v.recipients).Some? then OrderCheck(v.recipients)
    else if v.revision == RESERVED_REVISION then Some(ReservedRevision)
    else None
  }

  function EncodeIntent(d: Domains, v: Intent): Result<bytes>
    requires IntentFits(v)
  {
    Refused(IntentCheck(v), IntentLayout(d, v))
  }

  lemma SenderReads(v: Intent, tail: bytes)
    requires Fits(v.sender)
    ensures TakeSender(PutSender(v, tail)) == Unless(SizeCheck(v.sender), (v.group, v.revision, v.sender), tail)
  {
    var t1 := PutMember(v.sender, tail);
    FixedReads(v.group, PutU64(v.revision, t1));
    TakeU64App(v.revision, t1, Malformed);
    MemberReads(v.sender, tail);
  }

  lemma SenderOneSpelling(b: bytes, v: Intent)
    requires var r := TakeSender(b); r.Got? && r.value == (v.group, v.revision, v.sender)
    ensures Fits(v.sender) && b == PutSender(v, TakeSender(b).rest)
  {
    var g := TakeFixed(b, GROUP_ID_LEN);
    var n := TakeU64(g.rest, Malformed);
    MemberOneSpelling(n.rest);
    TakeU64Canonical(g.rest, Malformed);
    FixedOneSpelling(b, GROUP_ID_LEN);
  }

  lemma SenderExtends(b: bytes, more: bytes)
    ensures Extends(Malformed, TakeSender(b), TakeSender(b + more), more)
  {
    var g := TakeFixed(b, GROUP_ID_LEN);
    FixedExtends(b, more, GROUP_ID_LEN);
    if g.Got? {
      var n := TakeU64(g.rest, Malformed);
      TakeU64Extends(g.rest, more, Malformed);
      if n.Got? { MemberExtends(n.rest, more); }
    }
  }

  lemma ContentReads(v: Intent, tail: bytes)
    requires Fits32(v.payload)
    ensures TakeContent(PutContent(v, tail)) == Unless(PayloadCheck(v.payload), (v.sequence, v.digest, v.payload), tail)
  {
    var t1 := PutLp32(v.payload, tail);
    TakeU64App(v.sequence, PutLp32(v.digest, t1), Malformed);
    FixedReads(v.digest, t1);
    TakeLp32App(v.payload, tail, Malformed);
  }

  lemma ContentOneSpelling(b: bytes, v: Intent)
    requires var r := TakeContent(b); r.Got? && r.value == (v.sequence, v.digest, v.payload)
    ensures Fits32(v.payload) && b == PutContent(v, TakeContent(b).rest)
  {
    var s := TakeU64(b, Malformed);
    var g := TakeFixed(s.rest, DIGEST_LEN);
    TakeLp32Canonical(g.rest, Malformed);
    FixedOneSpelling(s.rest, DIGEST_LEN);
    TakeU64Canonical(b, Malformed);
  }

  lemma ContentExtends(b: bytes, more: bytes)
    ensures Extends(Malformed, TakeContent(b), TakeContent(b + more), more)
  {
    var s := TakeU64(b, Malformed);
    TakeU64Extends(b, more, Malformed);
    if s.Got? {
      var g := TakeFixed(s.rest, DIGEST_LEN);
      FixedExtends(s.rest, more, DIGEST_LEN);
      if g.Got? { TakeLp32Extends(g.rest, more, Malformed); }
    }
  }

  lemma IntentReads(d: Domains, v: Intent)
    requires IntentFits(v)
    ensures TakeIntent(d, IntentLayout(d, v)) == Unless(WhileReading(v), v, [])
  {
    var t1 := PutMembers(v.recipients, []);
    var t2 := PutContent(v, t1);
    DomainReads(d.intent, PutSender(v, t2));
    SenderReads(v, t2);
    ContentReads(v, t1);
    MembersRead(v.recipients, [], false);
  }

  lemma IntentOneSpelling(d: Domains, b: bytes)
    ensures var r := TakeIntent(d, b); r.Got? && r.rest == [] ==> IntentFits(r.value) && b == IntentLayout(d, r.value)
  {
    var r := TakeIntent(d, b);
    if r.Got? && r.rest == [] {
      var h := TakeDomain(b, d.intent);
      var s := TakeSender(h.rest);
      var c := TakeContent(s.rest);
      MembersOneSpelling(c.rest, false);
      ContentOneSpelling(s.rest, r.value);
      SenderOneSpelling(h.rest, r.value);
      DomainOneSpelling(b, d.intent);
    }
  }

  lemma IntentExtends(d: Domains, b: bytes, more: bytes)
    ensures Extends(Malformed, TakeIntent(d, b), TakeIntent(d, b + more), more)
  {
    var h := TakeDomain(b, d.intent);
    DomainExtends(b, more, d.intent);
    if h.Got? {
      var s := TakeSender(h.rest);
      SenderExtends(h.rest, more);
      if s.Got? {
        var c := TakeContent(s.rest);
        ContentExtends(s.rest, more);
        if c.Got? { MembersExtend(c.rest, more, false); }
      }
    }
  }

  lemma IntentFinishes(d: Domains, v: Intent, b: bytes)
    requires TakeIntent(d, b) == Unless(WhileReading(v), v, [])
    ensures DecodeIntent(d, b) == Refused(IntentCheck(v), v)
  {
  }

  /** The decoder refuses an intent's layout exactly as the encoder refuses the value, for the same reason, whatever
      faults it has. */
  lemma IntentDecodesLayout(d: Domains, v: Intent)
    requires IntentFits(v)
    ensures DecodeIntent(d, IntentLayout(d, v)) == (match EncodeIntent(d, v) case Ok(_) => Ok(v) case Err(e) => Err(e))
  {
    IntentReads(d, v);
    IntentFinishes(d, v, IntentLayout(d, v));
  }

  lemma IntentAccepted(d: Domains, b: bytes)
    requires DecodeIntent(d, b).Ok?
    ensures var v := DecodeIntent(d, b).value; IntentFits(v) && EncodeIntent(d, v) == Ok(b) && Ascending(v.recipients)
  {
    IntentOneSpelling(d, b);
    var v := DecodeIntent(d, b).value;
    IntentDecodesLayout(d, v);
    OrderIsAscending(v.recipients);
  }

  lemma IntentPrefix(d: Domains, b: bytes, n: nat)
    requires DecodeIntent(d, b).Ok? && n < |b|
    ensures DecodeIntent(d, b[..n]) == Err(Malformed)
  {
    IntentExtends(d, b[..n], b[n..]);
    PrefixIsShort(x => TakeIntent(d, x), Malformed, b, n);
  }

  // Invitation bootstrap.

  datatype Bootstrap = Bootstrap(
    invitation: id16,
    group: id16,
    target: Member,
    revision: u64,
    digest: digest32,
    policy: u32,
    expires: u64,
    roster: Roster)

  predicate BootstrapFits(d: Domains, v: Bootstrap) {
    |v.target.identity| < 0x1_0000 && |v.target.device| < 0x1_0000 && RosterFits(v.roster)
      && Fits32(RosterLayout(d, v.roster))
  }

  function PutTarget(v: Bootstrap, tail: bytes): bytes
    requires |v.target.identity| < 0x1_0000 && |v.target.device| < 0x1_0000
  {
    v.invitation + (v.group + PutLp16(v.target.identity, PutLp16(v.target.device, tail)))
  }

  function PutOffer(v: Bootstrap, tail: bytes): bytes {
    PutU64(v.revision, v.digest + PutU32(v.policy, PutU64(v.expires, tail)))
  }

  function BootstrapLayout(d: Domains, v: Bootstrap): bytes
    requires BootstrapFits(d, v)
  {
    d.bootstrap + PutTarget(v, PutOffer(v, PutLp32(RosterLayout(d, v.roster), [])))
  }

  function TakeTarget(b: bytes): (r: Parse<(bytes, bytes, Member), Reason>)
    ensures r.Got? ==> |r.value.0| == 16 && |r.value.1| == 16
  {
    var (invitation, rest) :- Take(b, INVITATION_ID_LEN, Malformed);
    var (group, rest) :- Take(rest, GROUP_ID_LEN, Malformed);
    var (identity, rest) :- TakeLp16(rest, Malformed);
    var (device, rest) :- TakeLp16(rest, Malformed);
    Got((invitation, group, Member(identity, device)), rest)
  }

  function TakeOffer(b: bytes): (r: Parse<(u64, bytes, u32, u64), Reason>)
    ensures r.Got? ==> |r.value.1| == 32
  {
    var (revision, rest) :- TakeU64(b, Malformed);
    var (digest, rest) :- Take(rest, DIGEST_LEN, Malformed);
    var (policy, rest) :- TakeU32(rest, Malformed);
    var (expires, rest) :- TakeU64(rest, Malformed);
    Got((revision, digest, policy, expires), rest)
  }

  /** The nested roster: its refusal is the bootstrap's. */
  function TakeNested(d: Domains, b: bytes): Parse<Roster, Reason> {
    var (preimage, rest) :- TakeLp32(b, Malformed);
    match DecodeRoster(d, preimage)
    case Err(e) => Stop(e)
    case Ok(roster) => Got(roster, rest)
  }

  function TakeBootstrap(d: Domains, b: bytes): Parse<Bootstrap, Reason> {
    var (_, rest) :- TakeDomain(b, d.bootstrap);
    var (t, rest) :- TakeTarget(rest);
    var (o, rest) :- TakeOffer(rest);
    var (roster, rest) :- TakeNested(d, rest);
    Got(Bootstrap(t.0, t.1, t.2, o.0, o.1, o.2, o.3, roster), rest)
  }

  function InvitationCheck(v: Bootstrap): Option<Reason> {
    if v.revision == RESERVED_REVISION then Some(ReservedRevision)
    else if v.policy != POLICY_VERSION then Some(UnsupportedPolicy)
    else if SizeCheck(v.target).Some? then SizeCheck(v.target)
    else if v.group != v.roster.place.group then Some(Conflict)
    else if v.revision != v.roster.place.revision then Some(Conflict)
    else if v.policy != v.roster.terms.policy then Some(Conflict)
    else None
  }

  function DecodeBootstrap(d: Domains, b: bytes): Result<Bootstrap> {
    Finish(TakeBootstrap(d, b), InvitationCheck)
  }

  function EncodeBootstrap(d: Domains, v: Bootstrap): Result<bytes>
    requires BootstrapFits(d, v)
  {
    Refused(Or(ValidateRoster(v.roster), InvitationCheck(v)), BootstrapLayout(d, v))
  }

  lemma TargetReads(v: Bootstrap, tail: bytes)
    requires |v.target.identity| < 0x1_0000 && |v.target.device| < 0x1_0000
    ensures TakeTarget(PutTarget(v, tail)) == Got((v.invitation, v.group, v.target), tail)
  {
    var t1 := PutLp16(v.target.device, tail);
    var t2 := PutLp16(v.target.identity, t1);
    TakeApp(v.invitation, v.group + t2, Malformed);
    TakeApp(v.group, t2, Malformed);
    TakeLp16App(v.target.identity, t1, Malformed);
    TakeLp16App(v.target.device, tail, Malformed);
  }

  lemma TargetOneSpelling(b: bytes, v: Bootstrap)
    requires var r := TakeTarget(b); r.Got? && r.value == (v.invitation, v.group, v.target)
    ensures |v.target.identity| < 0x1_0000 && |v.target.device| < 0x1_0000 && b == PutTarget(v, TakeTarget(b).rest)
  {
    var i := Take(b, INVITATION_ID_LEN, Malformed);
    var g := Take(i.rest, GROUP_ID_LEN, Malformed);
    var n := TakeLp16(g.rest, Malformed);
    TakeLp16Canonical(n.rest, Malformed);
    TakeLp16Canonical(g.rest, Malformed);
    TakeCanonical(i.rest, GROUP_ID_LEN, Malformed);
    TakeCanonical(b, INVITATION_ID_LEN, Malformed);
  }

  lemma TargetExtends(b: bytes, more: bytes)
    ensures Extends(Malformed, TakeTarget(b), TakeTarget(b + more), more)
  {
    var i := Take(b, INVITATION_ID_LEN, Malformed);
    TakeExtends(b, more, INVITATION_ID_LEN, Malformed);
    if i.Got? {
      var g := Take(i.rest, GROUP_ID_LEN, Malformed);
      TakeExtends(i.rest, more, GROUP_ID_LEN, Malformed);
      if g.Got? {
        var n := TakeLp16(g.rest, Malformed);
        TakeLp16Extends(g.rest, more, Malformed);
        if n.Got? { TakeLp16Extends(n.rest, more, Malformed); }
      }
    }
  }

  lemma OfferReads(v: Bootstrap, tail: bytes)
    ensures TakeOffer(PutOffer(v, tail)) == Got((v.revision, v.digest, v.policy, v.expires), tail)
  {
    var t1 := PutU64(v.expires, tail);
    var t2 := PutU32(v.policy, t1);
    TakeU64App(v.revision, v.digest + t2, Malformed);
    TakeApp(v.digest, t2, Malformed);
    TakeU32App(v.policy, t1, Malformed);
    TakeU64App(v.expires, tail, Malformed);
  }

  lemma OfferOneSpelling(b: bytes, v: Bootstrap)
    requires var r := TakeOffer(b); r.Got? && r.value == (v.revision, v.digest, v.policy, v.expires)
    ensures b == PutOffer(v, TakeOffer(b).rest)
  {
    var n := TakeU64(b, Malformed);
    var g := Take(n.rest, DIGEST_LEN, Malformed);
    var p := TakeU32(g.rest, Malformed);
    TakeU64Canonical(p.rest, Malformed);
    TakeU32Canonical(g.rest, Malformed);
    TakeCanonical(n.rest, DIGEST_LEN, Malformed);
    TakeU64Canonical(b, Malformed);
  }

  lemma OfferExtends(b: bytes, more: bytes)
    ensures Extends(Malformed, TakeOffer(b), TakeOffer(b + more), more)
  {
    var n := TakeU64(b, Malformed);
    TakeU64Extends(b, more, Malformed);
    if n.Got? {
      var g := Take(n.rest, DIGEST_LEN, Malformed);
      TakeExtends(n.rest, more, DIGEST_LEN, Malformed);
      if g.Got? {
        var p := TakeU32(g.rest, Malformed);
        TakeU32Extends(g.rest, more, Malformed);
        if p.Got? { TakeU64Extends(p.rest, more, Malformed); }
      }
    }
  }

  lemma NestedReads(d: Domains, roster: Roster)
    requires Lengths(d) && RosterFits(roster) && Fits32(RosterLayout(d, roster))
    ensures var r := TakeNested(d, PutLp32(RosterLayout(d, roster), []));
            (r.Got? <==> ValidateRoster(roster).None?) && (r.Got? ==> r == Got(roster, []))
  {
    TakeLp32App(RosterLayout(d, roster), [], Malformed);
    RosterDecodesLayout(d, roster);
  }

  lemma NestedOneSpelling(d: Domains, b: bytes)
    requires Lengths(d) && TakeNested(d, b).Got?
    ensures var r := TakeNested(d, b);
            && RosterFits(r.value) && Fits32(RosterLayout(d, r.value)) && ValidateRoster(r.value).None?
            && b == PutLp32(RosterLayout(d, r.value), r.rest)
  {
    var p := TakeLp32(b, Malformed);
    TakeLp32Canonical(b, Malformed);
    RosterAccepted(d, p.value);
  }

  lemma NestedExtends(d: Domains, b: bytes, more: bytes)
    ensures Extends(Malformed, TakeNested(d, b), TakeNested(d, b + more), more)
  {
    TakeLp32Extends(b, more, Malformed);
  }

  lemma BootstrapReads(d: Domains, v: Bootstrap)
    requires Lengths(d) && BootstrapFits(d, v)
    ensures var r := TakeBootstrap(d, BootstrapLayout(d, v));
            (r.Got? <==> ValidateRoster(v.roster).None?) && (r.Got? ==> r == Got(v, []))
  {
    var t1 := PutLp32(RosterLayout(d, v.roster), []);
    var t2 := PutOffer(v, t1);
    DomainReads(d.bootstrap, PutTarget(v, t2));
    TargetReads(v, t2);
    OfferReads(v, t1);
    NestedReads(d, v.roster);
  }

  lemma BootstrapOneSpelling(d: Domains, b: bytes)
    requires Lengths(d)
    ensures var r := TakeBootstrap(d, b);
            r.Got? && r.rest == [] ==>
              BootstrapFits(d, r.value) && ValidateRoster(r.value.roster).None?
              && b == BootstrapLayout(d, r.value)
  {
    var r := TakeBootstrap(d, b);
    if r.Got? && r.rest == [] {
      var h := TakeDomain(b, d.bootstrap);
      var t := TakeTarget(h.rest);
      var o := TakeOffer(t.rest);
      NestedOneSpelling(d, o.rest);
      OfferOneSpelling(t.rest, r.value);
      TargetOneSpelling(h.rest, r.value);
      DomainOneSpelling(b, d.bootstrap);
    }
  }

  lemma BootstrapExtends(d: Domains, b: bytes, more: bytes)
    ensures Extends(Malformed, TakeBootstrap(d, b), TakeBootstrap(d, b + more), more)
  {
    var h := TakeDomain(b, d.bootstrap);
    DomainExtends(b, more, d.bootstrap);
    if h.Got? {
      var t := TakeTarget(h.rest);
      TargetExtends(h.rest, more);
      if t.Got? {
        var o := TakeOffer(t.rest);
        OfferExtends(t.rest, more);
        if o.Got? { NestedExtends(d, o.rest, more); }
      }
    }
  }

  lemma BootstrapFinishes(d: Domains, v: Bootstrap, b: bytes)
    requires var r := TakeBootstrap(d, b); (r.Got? <==> ValidateRoster(v.roster).None?) && (r.Got? ==> r == Got(v, []))
    ensures DecodeBootstrap(d, b).Ok? <==> Or(ValidateRoster(v.roster), InvitationCheck(v)).None?
    ensures DecodeBootstrap(d, b).Ok? ==> DecodeBootstrap(d, b) == Ok(v)
  {
  }

  lemma BootstrapDecodesLayout(d: Domains, v: Bootstrap)
    requires Lengths(d) && BootstrapFits(d, v)
    ensures DecodeBootstrap(d, BootstrapLayout(d, v)).Ok? <==> EncodeBootstrap(d, v).Ok?
    ensures EncodeBootstrap(d, v).Ok? ==> DecodeBootstrap(d, BootstrapLayout(d, v)) == Ok(v)
  {
    BootstrapReads(d, v);
    BootstrapFinishes(d, v, BootstrapLayout(d, v));
  }

  lemma BootstrapAccepted(d: Domains, b: bytes)
    requires Lengths(d) && DecodeBootstrap(d, b).Ok?
    ensures var v := DecodeBootstrap(d, b).value;
            BootstrapFits(d, v) && EncodeBootstrap(d, v) == Ok(b) && Ascending(v.roster.members)
  {
    BootstrapOneSpelling(d, b);
    ValidIsRead(DecodeBootstrap(d, b).value.roster);
  }

  lemma BootstrapPrefix(d: Domains, b: bytes, n: nat)
    requires DecodeBootstrap(d, b).Ok? && n < |b|
    ensures DecodeBootstrap(d, b[..n]) == Err(Malformed)
  {
    BootstrapExtends(d, b[..n], b[n..]);
    PrefixIsShort(x => TakeBootstrap(d, x), Malformed, b, n);
  }

  function BootstrapLen(v: Bootstrap): nat { 129 + |v.target.identity| + |v.target.device| + RosterLen(v.roster) }

  lemma BootstrapLength(d: Domains, v: Bootstrap)
    requires Lengths(d) && BootstrapFits(d, v)
    ensures |BootstrapLayout(d, v)| == BootstrapLen(v)
  {
    RosterLength(d, v.roster);
    var t1 := PutLp32(RosterLayout(d, v.roster), []);
    PutLp32Length(RosterLayout(d, v.roster), []);
    assert |PutOffer(v, t1)| == 52 + |t1|;
    assert |PutTarget(v, PutOffer(v, t1))| == 36 + |v.target.identity| + |v.target.device| + |PutOffer(v, t1)|;
  }

  // Group payload.

  datatype Payload =
    | OfContext(context: Context)
    | OfRoster(roster: Roster)
    | OfBootstrap(bootstrap: Bootstrap)
    | OfAcceptance(ack: Ack)
    | OfRevocation(ack: Ack)

  function Tag(v: Payload): byte {
    match v
    case OfContext(_) => 1
    case OfRoster(_) => 2
    case OfBootstrap(_) => 3
    case OfAcceptance(_) => 4
    case OfRevocation(_) => 5
  }

  predicate PayloadFits(d: Domains, v: Payload) {
    match v
    case OfContext(c) => ContextFits(c) && Fits32(ContextLayout(d, c))
    case OfRoster(r) => RosterFits(r) && Fits32(RosterLayout(d, r))
    case OfBootstrap(b) => BootstrapFits(d, b) && Fits32(BootstrapLayout(d, b))
    case OfAcceptance(a) => Fits32(AckLayout(d.acceptance, a))
    case OfRevocation(a) => Fits32(AckLayout(d.revocation, a))
  }

  function VariantLayout(d: Domains, v: Payload): (b: bytes)
    requires PayloadFits(d, v)
    ensures Fits32(b)
  {
    match v
    case OfContext(c) => ContextLayout(d, c)
    case OfRoster(r) => RosterLayout(d, r)
    case OfBootstrap(b) => BootstrapLayout(d, b)
    case OfAcceptance(a) => AckLayout(d.acceptance, a)
    case OfRevocation(a) => AckLayout(d.revocation, a)
  }

  function EncodeVariant(d: Domains, v: Payload): Result<bytes>
    requires PayloadFits(d, v)
  {
    match v
    case OfContext(c) => EncodeContext(d, c)
    case OfRoster(r) => EncodeRoster(d, r)
    case OfBootstrap(b) => EncodeBootstrap(d, b)
    case OfAcceptance(a) => EncodeAck(d.acceptance, a)
    case OfRevocation(a) => EncodeAck(d.revocation, a)
  }

  function Wrap<T>(r: Result<T>, f: T -> Payload): Result<Payload> {
    match r
    case Err(e) => Err(e)
    case Ok(x) => Ok(f(x))
  }

  function DecodeVariant(d: Domains, tag: byte, value: bytes): Result<Payload> {
    if tag == 1 then Wrap(DecodeContext(d, value), x => OfContext(x))
    else if tag == 2 then Wrap(DecodeRoster(d, value), x => OfRoster(x))
    else if tag == 3 then Wrap(DecodeBootstrap(d, value), x => OfBootstrap(x))
    else if tag == 4 then Wrap(DecodeAck(d.acceptance, value), x => OfAcceptance(x))
    else if tag == 5 then Wrap(DecodeAck(d.revocation, value), x => OfRevocation(x))
    else Err(Malformed)
  }

  function PayloadLayout(d: Domains, v: Payload): bytes
    requires PayloadFits(d, v)
  {
    d.payload + ([Tag(v)] + PutLp32(VariantLayout(d, v), []))
  }

  function DecodePayload(d: Domains, b: bytes): Result<Payload> {
    if |b| > MAX_GROUP_PAYLOAD || !(d.payload <= b) then Err(Malformed)
    else
      var rest := b[|d.payload|..];
      if |rest| < 5 || |rest| - 5 != N32(rest[1..5]) then Err(Malformed)
      else DecodeVariant(d, rest[0], rest[5..])
  }

  function EncodePayload(d: Domains, v: Payload): Result<bytes>
    requires PayloadFits(d, v)
  {
    match EncodeVariant(d, v)
    case Err(e) => Err(e)
    case Ok(_) => if |PayloadLayout(d, v)| > MAX_GROUP_PAYLOAD then Err(Malformed) else Ok(PayloadLayout(d, v))
  }

  function VariantCheck(v: Payload): Option<Reason> {
    match v
    case OfContext(c) => ValidateContext(c)
    case OfRoster(r) => ValidateRoster(r)
    case OfBootstrap(b) => Or(ValidateRoster(b.roster), InvitationCheck(b))
    case OfAcceptance(a) => AckCheck(a)
    case OfRevocation(a) => AckCheck(a)
  }

  lemma EncodeVariantIs(d: Domains, v: Payload)
    requires PayloadFits(d, v)
    ensures EncodeVariant(d, v) == Refused(VariantCheck(v), VariantLayout(d, v))
  {
  }

  /** A variant decodes from `b` to the value exactly when it passes its checks. */
  ghost predicate VariantReads(d: Domains, v: Payload, b: bytes) {
    var r := DecodeVariant(d, Tag(v), b);
    (r.Ok? <==> VariantCheck(v).None?) && (r.Ok? ==> r == Ok(v))
  }

  lemma ContextVariant(d: Domains, c: Context, b: bytes)
    requires DecodeContext(d, b).Ok? <==> ValidateContext(c).None?
    requires ValidateContext(c).None? ==> DecodeContext(d, b) == Ok(c)
    ensures VariantReads(d, OfContext(c), b)
  {
  }

  lemma RosterVariant(d: Domains, r: Roster, b: bytes)
    requires DecodeRoster(d, b).Ok? <==> ValidateRoster(r).None?
    requires ValidateRoster(r).None? ==> DecodeRoster(d, b) == Ok(r)
    ensures VariantReads(d, OfRoster(r), b)
  {
  }

  lemma BootstrapVariant(d: Domains, v: Bootstrap, b: bytes)
    requires DecodeBootstrap(d, b).Ok? <==> Or(ValidateRoster(v.roster), InvitationCheck(v)).None?
    requires DecodeBootstrap(d, b).Ok? ==> DecodeBootstrap(d, b) == Ok(v)
    ensures VariantReads(d, OfBootstrap(v), b)
  {
  }

  lemma AckVariants(d: Domains, a: Ack, b: bytes, c: bytes)
    requires DecodeAck(d.acceptance, b) == Refused(AckCheck(a), a)
             && DecodeAck(d.revocation, c) == Refused(AckCheck(a), a)
    ensures VariantReads(d, OfAcceptance(a), b) && VariantReads(d, OfRevocation(a), c)
  {
  }

  /** Every variant is accepted from its layout exactly when it encodes. */
  lemma VariantDecodesLayout(d: Domains, v: Payload)
    requires Lengths(d) && PayloadFits(d, v)
    ensures VariantReads(d, v, VariantLayout(d, v))
  {
    match v
    case OfContext(c) => ContextDecodesLayout(d, c); ContextVariant(d, c, ContextLayout(d, c));
    case OfRoster(r) => RosterDecodesLayout(d, r); RosterVariant(d, r, RosterLayout(d, r));
    case OfBootstrap(b) => BootstrapDecodesLayout(d, b); BootstrapVariant(d, b, BootstrapLayout(d, b));
    case OfAcceptance(a) => AcksDecodeLayouts(d, a);
    case OfRevocation(a) => AcksDecodeLayouts(d, a);
  }

  lemma AcksDecodeLayouts(d: Domains, a: Ack)
    ensures VariantReads(d, OfAcceptance(a), AckLayout(d.acceptance, a))
            && VariantReads(d, OfRevocation(a), AckLayout(d.revocation, a))
  {
    AckDecodesLayout(d.acceptance, a);
    AckDecodesLayout(d.revocation, a);
    AckVariants(d, a, AckLayout(d.acceptance, a), AckLayout(d.revocation, a));
  }

  function VariantLen(v: Payload): nat {
    match v
    case OfContext(c) => ContextLen(c)
    case OfRoster(r) => RosterLen(r)
    case OfBootstrap(b) => BootstrapLen(b)
    case OfAcceptance(_) => 110
    case OfRevocation(_) => 110
  }

  lemma VariantLength(d: Domains, v: Payload)
    requires Lengths(d) && PayloadFits(d, v)
    ensures |VariantLayout(d, v)| == VariantLen(v)
  {
    match v
    case OfContext(c) => ContextLength(d, c);
    case OfRoster(r) => RosterLength(d, r);
    case OfBootstrap(b) => BootstrapLength(d, b);
    case OfAcceptance(a) => AckLength(d.acceptance, a);
    case OfRevocation(a) => AckLength(d.revocation, a);
  }

  /** No valid variant is near the payload bound. */
  lemma ValidIsShort(v: Payload)
    requires VariantCheck(v).None?
    ensures VariantLen(v) <= 4545
  {
  }

  lemma WrapParts(domain: bytes, tag: byte, value: bytes)
    requires Fits32(value)
    ensures var b := domain + ([tag] + PutLp32(value, [])); var rest := b[|domain|..];
            domain <= b && |b| == |domain| + 5 + |value| && rest[0] == tag && N32(rest[1..5]) == |value|
              && rest[5..] == value
  {
    var rest := [tag] + PutLp32(value, []);
    assert (domain + rest)[|domain|..] == rest;
    assert value + [] == value;
    assert rest[1..5] == U32(|value|) && rest[5..] == value;
  }

  lemma PayloadFinishes(d: Domains, v: Payload, b: bytes, value: bytes)
    requires Lengths(d) && VariantReads(d, v, value) && |value| == VariantLen(v)
    requires d.payload <= b && |b| == 29 + |value|
    requires var rest := b[|d.payload|..]; rest[0] == Tag(v) && N32(rest[1..5]) == |value| && rest[5..] == value
    ensures DecodePayload(d, b).Ok? <==> VariantCheck(v).None?
    ensures DecodePayload(d, b).Ok? ==> DecodePayload(d, b) == Ok(v)
  {
    if VariantCheck(v).None? { ValidIsShort(v); }
  }

  /** A payload is accepted from its layout exactly when it encodes, and the payload bound never refuses a valid
      variant. */
  lemma PayloadDecodesLayout(d: Domains, v: Payload)
    requires Lengths(d) && PayloadFits(d, v)
    ensures DecodePayload(d, PayloadLayout(d, v)).Ok? <==> EncodePayload(d, v).Ok?
    ensures EncodePayload(d, v).Ok? ==> DecodePayload(d, PayloadLayout(d, v)) == Ok(v)
    ensures EncodePayload(d, v).Ok? <==> EncodeVariant(d, v).Ok?
  {
    WrapParts(d.payload, Tag(v), VariantLayout(d, v));
    VariantLength(d, v);
    VariantDecodesLayout(d, v);
    EncodeVariantIs(d, v);
    PayloadFinishes(d, v, PayloadLayout(d, v), VariantLayout(d, v));
    if VariantCheck(v).None? { ValidIsShort(v); }
  }

  lemma VariantAccepted(d: Domains, tag: byte, value: bytes)
    requires Lengths(d) && DecodeVariant(d, tag, value).Ok? && Fits32(value)
    ensures var v := DecodeVariant(d, tag, value).value;
            Tag(v) == tag && PayloadFits(d, v) && EncodeVariant(d, v) == Ok(value)
  {
    if tag == 1 { ContextAccepted(d, value); }
    else if tag == 2 { RosterAccepted(d, value); }
    else if tag == 3 { BootstrapAccepted(d, value); }
    else if tag == 4 { AckAccepted(d.acceptance, value); }
    else { AckAccepted(d.revocation, value); }
  }

  lemma UnwrapParts(domain: bytes, b: bytes)
    requires domain <= b && |b| >= |domain| + 5
    requires var rest := b[|domain|..]; N32(rest[1..5]) == |rest| - 5
    ensures var rest := b[|domain|..]; Fits32(rest[5..]) && b == domain + ([rest[0]] + PutLp32(rest[5..], []))
  {
    var rest := b[|domain|..];
    assert b == domain + rest;
    assert rest == [rest[0]] + (rest[1..5] + rest[5..]);
    assert rest[5..] + [] == rest[5..];
    U32Canonical(rest[1..5]);
  }

  lemma PayloadAccepted(d: Domains, b: bytes)
    requires Lengths(d) && DecodePayload(d, b).Ok?
    ensures var v := DecodePayload(d, b).value; PayloadFits(d, v) && EncodePayload(d, v) == Ok(b)
  {
    var rest := b[|d.payload|..];
    VariantAccepted(d, rest[0], rest[5..]);
    var v := DecodePayload(d, b).value;
    EncodeVariantIs(d, v);
    UnwrapParts(d.payload, b);
  }

  lemma PayloadPrefix(d: Domains, b: bytes, n: nat)
    requires DecodePayload(d, b).Ok? && n < |b|
    ensures DecodePayload(d, b[..n]) == Err(Malformed)
  {
    var rest, short := b[|d.payload|..], b[..n];
    if d.payload <= short && |short| >= |d.payload| + 5 {
      assert short[|d.payload|..] == rest[..n - |d.payload|];
      assert rest[..n - |d.payload|][1..5] == rest[1..5];
    }
  }
}
