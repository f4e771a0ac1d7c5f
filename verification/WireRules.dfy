/**
  What it means for a group wire value to be valid, and for bytes to be accepted: each
  format's rules said of the value alone, the bytes spelled out field by field, and the
  reason given when a rule is broken (sections 1, 2 and 5 to 11 of spec/group-wire-formats.md).
 */
module WireRules {
  import opened Bytes
  import opened Order
  import opened Wire
  import opened WireFormats

  // Bytes and their order.

  /** The most significant byte comes first, and half by half in the longer ones. */
  lemma BigEndian(n: u16, m: u32, k: u64)
    ensures U16(n) == [n / 0x100, n % 0x100]
    ensures U32(m) == U16(m / 0x1_0000) + U16(m % 0x1_0000)
    ensures U64(k) == U32(k / 0x1_0000_0000) + U32(k % 0x1_0000_0000)
  {
  }

  /** `a` is a proper prefix of `b`, or is below it where they first differ. */
  ghost predicate DiffersBelow(a: bytes, b: bytes, k: nat) {
    k <= |a| && k <= |b| && a[..k] == b[..k] && k < |b| && (k == |a| || a[k] < b[k])
  }

  lemma {:induction false} LexMeans(a: bytes, b: bytes)
    ensures LexLt(a, b) <==> exists k: nat :: DiffersBelow(a, b, k)
    decreases |a|
  {
    if a == [] {
      if b != [] { assert DiffersBelow(a, b, 0); }
    } else if b != [] {
      LexMeans(a[1..], b[1..]);
      assert a == [a[0]] + a[1..] && b == [b[0]] + b[1..];
      if a[0] < b[0] {
        assert DiffersBelow(a, b, 0);
      } else if a[0] == b[0] {
        if LexLt(a[1..], b[1..]) {
          var k: nat :| DiffersBelow(a[1..], b[1..], k);
          assert a[..k + 1] == [a[0]] + a[1..][..k] && b[..k + 1] == [b[0]] + b[1..][..k];
          assert DiffersBelow(a, b, k + 1);
        }
        if exists k: nat :: DiffersBelow(a, b, k) { RestDiffers(a, b); }
      } else {
        forall k: nat ensures !DiffersBelow(a, b, k) {
          if k > 0 && k <= |a| && k <= |b| { assert a[..k][0] == a[0] && b[..k][0] == b[0]; }
        }
      }
    }
  }

  lemma RestDiffers(a: bytes, b: bytes)
    requires a != [] && b != [] && a[0] == b[0] && exists k: nat :: DiffersBelow(a, b, k)
    ensures exists k: nat :: DiffersBelow(a[1..], b[1..], k)
  {
    var k: nat :| DiffersBelow(a, b, k);
    assert k > 0;
    assert a[1..][..k - 1] == a[..k][1..] && b[1..][..k - 1] == b[..k][1..];
    assert DiffersBelow(a[1..], b[1..], k - 1);
  }

  // Members.

  predicate Sound(m: Member) { |m.identity| <= 256 && |m.device| <= 64 }

  ghost predicate SoundMembers(ms: seq<Member>) { |ms| <= 8 && forall m | m in ms :: Sound(m) }

  lemma SizeMeans(m: Member)
    ensures SizeCheck(m) == SizeRules(m, None)
    ensures SizeCheck(m).None? <==> Sound(m)
  {
  }

  lemma MembersMean(ms: seq<Member>)
    ensures MembersCheck(ms).None? <==> (forall m | m in ms :: Sound(m)) && Ascending(ms)
    ensures FirstTooLarge(ms).None? <==> forall m | m in ms :: Sound(m)
  {
    MembersCheckNone(ms);
    NoError(ms, SizeCheck);
  }

  /** The refusal is of the first member that breaks a rule: its identity, then its device, then its place. */
  ghost predicate FirstAtFault(ms: seq<Member>, i: nat, e: Reason) {
    && i < |ms| && (forall m | m in ms[..i] :: Sound(m)) && Ascending(ms[..i])
    && (if |ms[i].identity| > 256 then e == IdentityTooLarge
        else if |ms[i].device| > 64 then e == DeviceTooLarge
        else !Ascending(ms[..i + 1]) && e == NonCanonical)
  }

  lemma {:induction false} MembersReason(ms: seq<Member>)
    requires MembersCheck(ms).Some?
    ensures exists i: nat :: FirstAtFault(ms, i, MembersCheck(ms).value)
    decreases |ms|
  {
    var front := ms[..|ms| - 1];
    if MembersCheck(front).Some? {
      MembersReason(front);
      var i: nat :| FirstAtFault(front, i, MembersCheck(front).value);
      assert ms[..i] == front[..i] && ms[..i + 1] == front[..i + 1];
      assert FirstAtFault(ms, i, MembersCheck(ms).value);
    } else {
      MembersMean(front);
      MembersMean(ms);
      assert ms[..|front|] == front && ms[..|front| + 1] == ms;
      assert ms == front + [ms[|front|]];
      assert FirstAtFault(ms, |front|, MembersCheck(ms).value);
    }
  }

  // The roster.

  /** A roster that may be written: section 5, rule by rule. */
  ghost predicate GoodRoster(v: Roster) {
    && v.place.revision != 0xFFFF_FFFF_FFFF_FFFF && v.terms.policy == 1
    && (v.place.revision == 0 ==>
          && (forall i | 0 <= i < 32 :: v.place.digest[i] == 0)
          && !v.terms.closed && v.members == [v.terms.authority])
    && SoundMembers(v.members) && Sound(v.terms.authority) && Ascending(v.members)
    && RosterLen(v) <= 4096
  }

  lemma GenesisMeans(v: Roster)
    ensures GenesisOk(v) <==>
            (forall i | 0 <= i < 32 :: v.place.digest[i] == 0) && !v.terms.closed && v.members == [v.terms.authority]
  {
    if forall i | 0 <= i < 32 :: v.place.digest[i] == 0 { assert v.place.digest == seq(DIGEST_LEN, _ => 0); }
  }

  lemma RosterMeans(v: Roster)
    ensures ValidateRoster(v).None? <==> GoodRoster(v)
  {
    GenesisMeans(v);
    MembersMean(v.members);
    SizeMeans(v.terms.authority);
  }

  /**
    Bytes decode to a roster if and only if it is a good one and they are its layout, and a
    roster encodes if and only if it is good.
   */
  lemma RosterExactly(d: Domains, b: bytes, v: Roster)
    requires Lengths(d)
    ensures DecodeRoster(d, b) == Ok(v) <==> RosterFits(v) && GoodRoster(v) && b == RosterLayout(d, v)
    ensures RosterFits(v) ==> (EncodeRoster(d, v).Ok? <==> GoodRoster(v))
  {
    RosterMeans(v);
    if DecodeRoster(d, b) == Ok(v) { RosterAccepted(d, b); }
    if RosterFits(v) { RosterDecodesLayout(d, v); }
  }

  // Reasons: the first rule that is broken.

  type Broken = Option<Reason>

  function First(broken: bool, e: Reason, rest: Broken): Broken { if broken then Some(e) else rest }

  function SizeRules(m: Member, rest: Broken): Broken {
    First(|m.identity| > 256, IdentityTooLarge, First(|m.device| > 64, DeviceTooLarge, rest))
  }

  ghost predicate NotGenesis(v: Roster) {
    || (exists i | 0 <= i < 32 :: v.place.digest[i] != 0)
    || v.terms.closed || v.members != [v.terms.authority]
  }

  /** The encoder's reason; `members` is the reason of the first member at fault, if there is one. */
  lemma RosterReason(d: Domains, v: Roster, members: Broken)
    requires RosterFits(v) && EncodeRoster(d, v).Err?
    requires members.None? <==> Ascending(v.members) && forall m | m in v.members :: Sound(m)
    requires members.Some? ==> MembersCheck(v.members) == members
    ensures Some(EncodeRoster(d, v).reason) ==
            First(v.place.revision == 0xFFFF_FFFF_FFFF_FFFF, ReservedRevision,
            First(v.terms.policy != 1, UnsupportedPolicy,
            First(v.place.revision == 0 && NotGenesis(v), InvalidGenesis,
            First(|v.members| > 8, TooManyMembers,
            SizeRules(v.terms.authority,
            if members.Some? then members else Some(RosterTooLarge))))))
    ensures members.Some? ==> exists i: nat :: FirstAtFault(v.members, i, members.value)
  {
    GenesisMeans(v);
    MembersMean(v.members);
    SizeMeans(v.terms.authority);
    if members.Some? { MembersReason(v.members); }
  }

  /** A genesis that is not one is refused as such by the decoder too, wherever it is otherwise well formed. */
  lemma DecodedGenesis(d: Domains, v: Roster)
    requires Lengths(d) && RosterFits(v) && v.place.revision == 0 && NotGenesis(v) && v.terms.policy == 1
    requires SoundMembers(v.members) && Sound(v.terms.authority) && RosterLen(v) <= 4096
    ensures DecodeRoster(d, RosterLayout(d, v)) == Err(InvalidGenesis)
  {
    MembersMean(v.members);
    SizeMeans(v.terms.authority);
    assert ReadCheck(v).None?;
    GenesisMeans(v);
    assert ValidateRoster(v) == Some(InvalidGenesis);
    RosterLength(d, v);
    RosterReads(d, v);
    RefusedAtTheEnd(d, RosterLayout(d, v), v, InvalidGenesis);
  }

  lemma RefusedAtTheEnd(d: Domains, b: bytes, v: Roster, e: Reason)
    requires |b| <= 4096 && TakeRoster(d, b) == Got(v, []) && ValidateRoster(v) == Some(e)
    ensures DecodeRoster(d, b) == Err(e)
  {
  }

  // The application context.

  ghost predicate GoodContext(v: Context) {
    && v.place.revision != 0xFFFF_FFFF_FFFF_FFFF && |v.payload| <= 1024 && Sound(v.sender) && Sound(v.recipient)
  }

  lemma ContextMeans(v: Context)
    ensures ValidateContext(v).None? <==> GoodContext(v)
  {
    ContextIsNeverTooLarge(v);
    SizeMeans(v.sender);
    SizeMeans(v.recipient);
  }

  lemma ContextExactly(d: Domains, b: bytes, v: Context)
    requires Lengths(d)
    ensures DecodeContext(d, b) == Ok(v) <==> ContextFits(v) && GoodContext(v) && b == ContextLayout(d, v)
    ensures ContextFits(v) ==> (EncodeContext(d, v).Ok? <==> GoodContext(v))
  {
    ContextMeans(v);
    if DecodeContext(d, b) == Ok(v) { ContextAccepted(d, b); }
    if ContextFits(v) { ContextDecodesLayout(d, v); }
  }

  lemma ContextReason(d: Domains, v: Context)
    requires ContextFits(v) && EncodeContext(d, v).Err?
    ensures Some(EncodeContext(d, v).reason) ==
            First(v.place.revision == 0xFFFF_FFFF_FFFF_FFFF, ReservedRevision,
            First(|v.payload| > 1024, PayloadTooLarge,
            SizeRules(v.sender, SizeRules(v.recipient, None))))
  {
    ContextIsNeverTooLarge(v);
  }

  // The invitation.

  ghost predicate GoodInvitation(v: Bootstrap) {
    && GoodRoster(v.roster) && v.revision != 0xFFFF_FFFF_FFFF_FFFF && v.policy == 1 && Sound(v.target)
    && v.group == v.roster.place.group && v.revision == v.roster.place.revision
  }

  lemma InvitationMeans(v: Bootstrap)
    ensures Or(ValidateRoster(v.roster), InvitationCheck(v)).None? <==> GoodInvitation(v)
  {
    RosterMeans(v.roster);
    SizeMeans(v.target);
  }

  lemma InvitationExactly(d: Domains, b: bytes, v: Bootstrap)
    requires Lengths(d)
    ensures DecodeBootstrap(d, b) == Ok(v) <==> BootstrapFits(d, v) && GoodInvitation(v) && b == BootstrapLayout(d, v)
    ensures BootstrapFits(d, v) ==> (EncodeBootstrap(d, v).Ok? <==> GoodInvitation(v))
  {
    InvitationMeans(v);
    if DecodeBootstrap(d, b) == Ok(v) { BootstrapAccepted(d, b); }
    if BootstrapFits(d, v) { BootstrapDecodesLayout(d, v); }
  }

  lemma InvitationReason(d: Domains, v: Bootstrap)
    requires BootstrapFits(d, v) && GoodRoster(v.roster) && EncodeBootstrap(d, v).Err?
    ensures Some(EncodeBootstrap(d, v).reason) ==
            First(v.revision == 0xFFFF_FFFF_FFFF_FFFF, ReservedRevision,
            First(v.policy != 1, UnsupportedPolicy,
            SizeRules(v.target,
            First(v.group != v.roster.place.group || v.revision != v.roster.place.revision, Conflict, None))))
  {
    RosterMeans(v.roster);
  }

  // The acknowledgements and the intent.

  lemma AckExactly(domain: bytes, b: bytes, v: Ack)
    ensures DecodeAck(domain, b) == Ok(v) <==> v.revision != 0xFFFF_FFFF_FFFF_FFFF && b == AckLayout(domain, v)
    ensures v.revision == 0xFFFF_FFFF_FFFF_FFFF ==> DecodeAck(domain, AckLayout(domain, v)) == Err(ReservedRevision)
  {
    if DecodeAck(domain, b) == Ok(v) { AckAccepted(domain, b); }
    AckDecodesLayout(domain, v);
  }

  ghost predicate GoodIntent(v: Intent) {
    && Sound(v.sender) && |v.payload| <= 1024
    && v.recipients != [] && SoundMembers(v.recipients) && Ascending(v.recipients)
    && v.revision != 0xFFFF_FFFF_FFFF_FFFF
  }

  lemma IntentMeans(v: Intent)
    ensures IntentCheck(v).None? <==> GoodIntent(v)
  {
    MembersMean(v.recipients);
    OrderIsAscending(v.recipients);
    SizeMeans(v.sender);
  }

  lemma IntentExactly(d: Domains, b: bytes, v: Intent)
    ensures DecodeIntent(d, b) == Ok(v) <==> IntentFits(v) && GoodIntent(v) && b == IntentLayout(d, v)
    ensures IntentFits(v) ==> (EncodeIntent(d, v).Ok? <==> GoodIntent(v))
  {
    IntentMeans(v);
    if DecodeIntent(d, b) == Ok(v) { IntentAccepted(d, b); }
    if IntentFits(v) { IntentDecodesLayout(d, v); }
  }

  /** For the encoder and, on the layout, for the decoder alike; `sizes` is the reason of the first member too large. */
  lemma IntentReason(d: Domains, v: Intent, sizes: Broken)
    requires IntentFits(v) && EncodeIntent(d, v).Err? && sizes == FirstTooLarge(v.recipients)
    ensures Some(EncodeIntent(d, v).reason) ==
            SizeRules(v.sender,
            First(|v.payload| > 1024, PayloadTooLarge,
            First(v.recipients == [], EmptyRecipients,
            First(|v.recipients| > 8, TooManyMembers,
            if sizes.Some? then sizes
            else First(!Ascending(v.recipients), NonCanonical, Some(ReservedRevision))))))
    ensures DecodeIntent(d, IntentLayout(d, v)) == Err(EncodeIntent(d, v).reason)
    ensures sizes.None? <==> forall m | m in v.recipients :: Sound(m)
  {
    MembersMean(v.recipients);
    IntentChecks(v, sizes);
    IntentDecodesLayout(d, v);
  }

  lemma IntentChecks(v: Intent, sizes: Broken)
    requires IntentCheck(v).Some? && sizes == FirstTooLarge(v.recipients)
    ensures IntentCheck(v) ==
            SizeRules(v.sender,
            First(|v.payload| > 1024, PayloadTooLarge,
            First(v.recipients == [], EmptyRecipients,
            First(|v.recipients| > 8, TooManyMembers,
            if sizes.Some? then sizes
            else First(!Ascending(v.recipients), NonCanonical, Some(ReservedRevision))))))
  {
    OrderIsAscending(v.recipients);
    OrderReason(v.recipients);
  }

  lemma {:induction false} OrderReason(ms: seq<Member>)
    ensures OrderCheck(ms).Some? ==> OrderCheck(ms) == Some(NonCanonical)
    decreases |ms|
  {
    if ms != [] { OrderReason(ms[..|ms| - 1]); }
  }

  // The group payload.

  ghost predicate GoodPayload(v: Payload) {
    match v
    case OfContext(c) => GoodContext(c)
    case OfRoster(r) => GoodRoster(r)
    case OfBootstrap(b) => GoodInvitation(b)
    case OfAcceptance(a) => a.revision != 0xFFFF_FFFF_FFFF_FFFF
    case OfRevocation(a) => a.revision != 0xFFFF_FFFF_FFFF_FFFF
  }

  lemma PayloadMeans(v: Payload)
    ensures VariantCheck(v).None? <==> GoodPayload(v)
  {
    match v
    case OfContext(c) => ContextMeans(c);
    case OfRoster(r) => RosterMeans(r);
    case OfBootstrap(b) => InvitationMeans(b);
    case _ =>
  }

  lemma PayloadExactly(d: Domains, b: bytes, v: Payload)
    requires Lengths(d)
    ensures DecodePayload(d, b) == Ok(v) <==> PayloadFits(d, v) && GoodPayload(v) && b == PayloadLayout(d, v)
    ensures PayloadFits(d, v) ==> (EncodePayload(d, v).Ok? <==> GoodPayload(v))
  {
    if DecodePayload(d, b) == Ok(v) {
      PayloadAccepted(d, b);
      assert EncodePayload(d, v) == Ok(b);
      EncodesItsLayout(d, v, b);
    }
    if PayloadFits(d, v) {
      PayloadDecodesLayout(d, v);
      EncodesWhenGood(d, v);
    }
  }

  lemma EncodesWhenGood(d: Domains, v: Payload)
    requires PayloadFits(d, v)
    ensures EncodeVariant(d, v).Ok? <==> GoodPayload(v)
  {
    PayloadMeans(v);
    EncodeVariantIs(d, v);
  }

  lemma EncodesItsLayout(d: Domains, v: Payload, b: bytes)
    requires PayloadFits(d, v) && EncodePayload(d, v) == Ok(b)
    ensures b == PayloadLayout(d, v)
  {
  }

  // The layouts, field by field.

  function Lp(x: bytes, tail: bytes): bytes
    requires Fits32(x)
  {
    U32(|x|) + (x + tail)
  }

  function MembersBytes(ms: seq<Member>): bytes
    requires forall m | m in ms :: Fits(m)
  {
    if ms == [] then []
    else
      var m := ms[0];
      assert m in ms && Fits(m);
      Lp(m.identity, Lp(m.device, MembersBytes(ms[1..])))
  }

  lemma {:induction false} MembersAreBytes(ms: seq<Member>)
    requires forall m | m in ms :: Fits(m)
    ensures PutMany(ms, PutMember, []) == MembersBytes(ms)
    decreases |ms|
  {
    if ms != [] { MembersAreBytes(ms[1..]); }
  }

  /** Section 5: group, revision, predecessor digest, authority, policy, closed, members. */
  lemma RosterBytes(d: Domains, v: Roster)
    requires RosterFits(v)
    ensures RosterLayout(d, v) ==
            d.roster + Lp(v.place.group, U64(v.place.revision) + Lp(v.place.digest,
            Lp(v.terms.authority.identity, Lp(v.terms.authority.device,
            U32(v.terms.policy) + ([if v.terms.closed then 1 else 0] + (U32(|v.members|) + MembersBytes(v.members)))))))
  {
    MembersAreBytes(v.members);
  }

  /** Section 6: group, revision, roster digest, sender, recipient, sequence, payload. */
  lemma ContextBytes(d: Domains, v: Context)
    requires ContextFits(v)
    ensures ContextLayout(d, v) ==
            d.context + Lp(v.place.group, U64(v.place.revision) + Lp(v.place.digest,
            Lp(v.sender.identity, Lp(v.sender.device, Lp(v.recipient.identity, Lp(v.recipient.device,
            U64(v.sequence) + Lp(v.payload, [])))))))
  {
  }

  /** Section 7: invitation, group, target with two-byte lengths, revision, digest, policy, expiry, roster. */
  lemma InvitationBytes(d: Domains, v: Bootstrap)
    requires BootstrapFits(d, v)
    ensures BootstrapLayout(d, v) ==
            d.bootstrap + (v.invitation + (v.group
            + (U16(|v.target.identity|) + (v.target.identity + (U16(|v.target.device|) + (v.target.device
            + (U64(v.revision) + (v.digest + (U32(v.policy) + (U64(v.expires)
            + Lp(RosterLayout(d, v.roster), [])))))))))))
  {
  }

  /** Sections 8 and 9: group, invitation, revision, digest, all bare. */
  lemma AckBytes(domain: bytes, v: Ack)
    ensures AckLayout(domain, v) == domain + (v.group + (v.invitation + (U64(v.revision) + v.digest)))
  {
  }

  /** Section 11: group, revision, sender, sequence, digest, payload, recipients. */
  lemma IntentBytes(d: Domains, v: Intent)
    requires IntentFits(v)
    ensures IntentLayout(d, v) ==
            d.intent + Lp(v.group, U64(v.revision) + Lp(v.sender.identity, Lp(v.sender.device,
            U64(v.sequence) + Lp(v.digest, Lp(v.payload, U32(|v.recipients|) + MembersBytes(v.recipients))))))
  {
    MembersAreBytes(v.recipients);
  }

  /** Section 10: a tag for the format, and then that format's bytes behind their length. */
  lemma PayloadBytes(d: Domains, v: Payload)
    requires PayloadFits(d, v)
    ensures PayloadLayout(d, v) ==
            d.payload + (match v
                         case OfContext(c) => [1] + Lp(ContextLayout(d, c), [])
                         case OfRoster(r) => [2] + Lp(RosterLayout(d, r), [])
                         case OfBootstrap(b) => [3] + Lp(BootstrapLayout(d, b), [])
                         case OfAcceptance(a) => [4] + Lp(AckLayout(d.acceptance, a), [])
                         case OfRevocation(a) => [5] + Lp(AckLayout(d.revocation, a), []))
  {
  }

  /** Past 8192 bytes a payload is malformed whatever it holds; within them the reason is the variant's own. */
  lemma PayloadReason(d: Domains, b: bytes, tag: byte, x: bytes)
    requires Fits32(x) && b == d.payload + ([tag] + (U32(|x|) + x))
    ensures |b| > 8192 ==> DecodePayload(d, b) == Err(Malformed)
    ensures |b| <= 8192 ==> DecodePayload(d, b) == DecodeVariant(d, tag, x)
  {
    var rest := b[|d.payload|..];
    assert rest == [tag] + (U32(|x|) + x);
    assert rest[1..5] == U32(|x|) && rest[5..] == x;
    TakeU32App(|x|, [], ());
    assert U32(|x|) + [] == U32(|x|);
  }
}
