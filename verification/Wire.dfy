/**
  The group wire formats, version 1: the parts they share, and the roster preimage
  (sections 1 to 5 of spec/group-wire-formats.md).
 */
module Wire {
  import opened Bytes
  import opened Order

  const GROUP_ID_LEN := 16
  const INVITATION_ID_LEN := 16
  const DIGEST_LEN := 32
  const POLICY_VERSION: u32 := 1
  const MAX_MEMBERS := 8
  const MAX_IDENTITY := 256
  const MAX_DEVICE := 64
  const MAX_PAYLOAD := 1024
  const MAX_ROSTER := 4096
  const MAX_CONTEXT := 2048
  const MAX_GROUP_PAYLOAD := 8192
  const RESERVED_REVISION: u64 := U64_MAX

  type id16 = b: bytes | |b| == 16 witness seq(16, _ => 0)
  type digest32 = b: bytes | |b| == 32 witness seq(32, _ => 0)

  datatype Reason =
    | Malformed
    | RosterTooLarge
    | ContextTooLarge
    | PayloadTooLarge
    | IdentityTooLarge
    | DeviceTooLarge
    | TooManyMembers
    | EmptyRecipients
    | ReservedRevision
    | UnsupportedPolicy
    | InvalidGenesis
    | NonCanonical
    | Conflict

  datatype Result<+T> = Ok(value: T) | Err(reason: Reason)

  /** The domain strings, by format. */
  datatype Domains = Domains(roster: bytes, context: bytes, bootstrap: bytes, acceptance: bytes, revocation: bytes,
    payload: bytes, intent: bytes)

  ghost predicate Lengths(d: Domains) {
    && |d.roster| == 23 && |d.context| == 28 && |d.bootstrap| == 37 && |d.acceptance| == 38
    && |d.revocation| == 38 && |d.payload| == 24 && |d.intent| == 29
  }

  // A domain string.

  function TakeDomain(b: bytes, domain: bytes): Parse<(), Reason> {
    var (x, rest) :- Take(b, |domain|, Malformed);
    if x != domain then Stop(Malformed) else Got((), rest)
  }

  lemma DomainReads(domain: bytes, tail: bytes)
    ensures TakeDomain(domain + tail, domain) == Got((), tail)
  {
    TakeApp(domain, tail, Malformed);
  }

  lemma DomainOneSpelling(b: bytes, domain: bytes)
    ensures var r := TakeDomain(b, domain); r.Got? ==> b == domain + r.rest
  {
    TakeCanonical(b, |domain|, Malformed);
  }

  lemma DomainExtends(b: bytes, more: bytes, domain: bytes)
    ensures Extends(Malformed, TakeDomain(b, domain), TakeDomain(b + more, domain), more)
  {
    TakeExtends(b, more, |domain|, Malformed);
  }

  // A length-prefixed field of a fixed length.

  function TakeFixed(b: bytes, n: nat): (r: Parse<bytes, Reason>)
    ensures r.Got? ==> |r.value| == n
  {
    var (x, rest) :- TakeLp32(b, Malformed);
    if |x| != n then Stop(Malformed) else Got(x, rest)
  }

  lemma FixedReads(x: bytes, tail: bytes)
    requires Fits32(x)
    ensures TakeFixed(PutLp32(x, tail), |x|) == Got(x, tail)
  {
    TakeLp32App(x, tail, Malformed);
  }

  lemma FixedOneSpelling(b: bytes, n: nat)
    ensures var r := TakeFixed(b, n); r.Got? ==> Fits32(r.value) && b == PutLp32(r.value, r.rest)
  {
    TakeLp32Canonical(b, Malformed);
  }

  lemma FixedExtends(b: bytes, more: bytes, n: nat)
    ensures Extends(Malformed, TakeFixed(b, n), TakeFixed(b + more, n), more)
  {
    TakeLp32Extends(b, more, Malformed);
  }

  // Members.

  datatype Member = Member(identity: bytes, device: bytes)

  predicate Fits(m: Member) { Fits32(m.identity) && Fits32(m.device) }

  function SizeCheck(m: Member): Option<Reason> {
    if |m.identity| > MAX_IDENTITY then Some(IdentityTooLarge)
    else if |m.device| > MAX_DEVICE then Some(DeviceTooLarge)
    else None
  }

  function PutMember(m: Member, tail: bytes): bytes
    requires Fits(m)
  {
    PutLp32(m.identity, PutLp32(m.device, tail))
  }

  function TakeMember(b: bytes): Parse<Member, Reason> {
    var (identity, rest) :- TakeLp32(b, Malformed);
    var (device, rest) :- TakeLp32(rest, Malformed);
    var e := SizeCheck(Member(identity, device));
    if e.Some? then Stop(e.value) else Got(Member(identity, device), rest)
  }

  lemma MemberReads(m: Member, tail: bytes)
    requires Fits(m)
    ensures TakeMember(PutMember(m, tail)) == Unless(SizeCheck(m), m, tail)
  {
    TakeLp32App(m.identity, PutLp32(m.device, tail), Malformed);
    TakeLp32App(m.device, tail, Malformed);
  }

  lemma MemberOneSpelling(b: bytes)
    ensures var r := TakeMember(b);
            r.Got? ==> Fits(r.value) && SizeCheck(r.value).None? && b == PutMember(r.value, r.rest)
  {
    TakeLp32Canonical(b, Malformed);
    var i := TakeLp32(b, Malformed);
    if i.Got? { TakeLp32Canonical(i.rest, Malformed); }
  }

  lemma MemberExtends(b: bytes, more: bytes)
    ensures Extends(Malformed, TakeMember(b), TakeMember(b + more), more)
  {
    TakeLp32Extends(b, more, Malformed);
    var i := TakeLp32(b, Malformed);
    if i.Got? { TakeLp32Extends(i.rest, more, Malformed); }
  }

  // A list of members.

  predicate AllFit(ms: seq<Member>) { |ms| < 0x1_0000_0000 && forall m | m in ms :: Fits(m) }

  function PutMembers(ms: seq<Member>, tail: bytes): bytes
    requires AllFit(ms)
  {
    PutU32(|ms|, PutMany(ms, PutMember, tail))
  }

  /** The first member that is too large. */
  function FirstTooLarge(ms: seq<Member>): Option<Reason> { FirstError(ms, SizeCheck) }

  /** How many a list may hold; an empty one only where it is allowed. */
  function CountCheck(n: nat, empty: bool): Option<Reason> {
    if n == 0 && !empty then Some(EmptyRecipients) else if n > MAX_MEMBERS then Some(TooManyMembers) else None
  }

  function TakeMembers(b: bytes, empty: bool): Parse<seq<Member>, Reason> {
    var (n, rest) :- TakeU32(b, Malformed);
    var e := CountCheck(n, empty);
    if e.Some? then Stop(e.value) else TakeMany(rest, n, TakeMember)
  }

  function Or(a: Option<Reason>, b: Option<Reason>): Option<Reason> { if a.Some? then a else b }

  lemma ManyRead(ms: seq<Member>, tail: bytes)
    requires forall m | m in ms :: Fits(m)
    ensures TakeMany(PutMany(ms, PutMember, tail), |ms|, TakeMember) == Unless(FirstTooLarge(ms), ms, tail)
  {
    forall m: Member, t: bytes | Fits(m) ensures TakeMember(PutMember(m, t)) == Unless(SizeCheck(m), m, t)
    {
      MemberReads(m, t);
    }
    TakeManyChecks(ms, PutMember, TakeMember, SizeCheck, Fits, tail);
  }

  lemma MembersRead(ms: seq<Member>, tail: bytes, empty: bool)
    requires AllFit(ms)
    ensures TakeMembers(PutMembers(ms, tail), empty) == Unless(Or(CountCheck(|ms|, empty), FirstTooLarge(ms)), ms, tail)
  {
    TakeU32App(|ms|, PutMany(ms, PutMember, tail), Malformed);
    ManyRead(ms, tail);
  }

  predicate Sized(m: Member) { Fits(m) && SizeCheck(m).None? }

  lemma ManyOneSpelling(b: bytes, n: nat)
    ensures var r := TakeMany(b, n, TakeMember);
            r.Got? ==>
              (forall m | m in r.value :: Fits(m)) && FirstTooLarge(r.value).None?
              && b == PutMany(r.value, PutMember, r.rest)
  {
    forall x: bytes | TakeMember(x).Got?
      ensures var r := TakeMember(x); Sized(r.value) && x == PutMember(r.value, r.rest)
    {
      MemberOneSpelling(x);
    }
    TakeManyOneSpelling(b, n, PutMember, TakeMember, Sized);
    var r := TakeMany(b, n, TakeMember);
    if r.Got? { NoError(r.value, SizeCheck); }
  }

  lemma MembersOneSpelling(b: bytes, empty: bool)
    ensures var r := TakeMembers(b, empty);
            r.Got? ==>
              AllFit(r.value) && Or(CountCheck(|r.value|, empty), FirstTooLarge(r.value)).None?
              && b == PutMembers(r.value, r.rest)
  {
    TakeU32Canonical(b, Malformed);
    var n := TakeU32(b, Malformed);
    if n.Got? { ManyOneSpelling(n.rest, n.value); }
  }

  lemma MembersExtend(b: bytes, more: bytes, empty: bool)
    ensures Extends(Malformed, TakeMembers(b, empty), TakeMembers(b + more, empty), more)
  {
    TakeU32Extends(b, more, Malformed);
    var n := TakeU32(b, Malformed);
    if n.Got? {
      forall x: bytes, y: bytes ensures Extends(Malformed, TakeMember(x), TakeMember(x + y), y) { MemberExtends(x, y); }
      TakeManyExtends(n.rest, more, n.value, TakeMember, Malformed);
    }
  }

  // Member order.

  predicate MemberLt(a: Member, b: Member) {
    LexLt(a.identity, b.identity) || (a.identity == b.identity && LexLt(a.device, b.device))
  }

  /** The order rules on one member after the ones before it. */
  predicate OutOfOrder(before: seq<Member>, m: Member) {
    (before != [] && !MemberLt(before[|before| - 1], m)) || exists e | e in before :: e.identity == m.identity
  }

  function OrderCheck(ms: seq<Member>): Option<Reason> {
    if ms == [] then None
    else Or(OrderCheck(ms[..|ms| - 1]), if OutOfOrder(ms[..|ms| - 1], ms[|ms| - 1]) then Some(NonCanonical) else None)
  }

  /** Size and order of each member in turn. */
  function MembersCheck(ms: seq<Member>): Option<Reason> {
    if ms == [] then None
    else
      var front, last := ms[..|ms| - 1], ms[|ms| - 1];
      Or(MembersCheck(front), Or(SizeCheck(last), if OutOfOrder(front, last) then Some(NonCanonical) else None))
  }

  ghost predicate Ascending(ms: seq<Member>) {
    forall i, j | 0 <= i < j < |ms| :: LexLt(ms[i].identity, ms[j].identity)
  }

  lemma LexLtIsTransitive(a: bytes, b: bytes, c: bytes)
    requires LexLe(a, b) && LexLt(b, c)
    ensures LexLt(a, c)
  {
    LexTransitive(a, b, c);
    if a == c { LexAntisymmetric(a, b); }
  }

  lemma LastAscends(front: seq<Member>, m: Member)
    requires Ascending(front)
    ensures !OutOfOrder(front, m) <==> Ascending(front + [m])
  {
    var ms := front + [m];
    if !OutOfOrder(front, m) && front != [] {
      var last := front[|front| - 1];
      assert last in front && last.identity != m.identity;
      forall i, j | 0 <= i < j < |ms| ensures LexLt(ms[i].identity, ms[j].identity) {
        if j < |front| { assert ms[i] == front[i] && ms[j] == front[j]; }
        else if i < |front| - 1 { LexLtIsTransitive(front[i].identity, last.identity, m.identity); }
      }
    }
    if Ascending(ms) {
      forall e | e in front ensures e.identity != m.identity
      {
        var i :| 0 <= i < |front| && front[i] == e;
        assert LexLt(ms[i].identity, ms[|front|].identity);
      }
      if front != [] { assert LexLt(ms[|front| - 1].identity, ms[|front|].identity); }
    }
  }

  /** Order and distinct identities together are strictly ascending identities. */
  lemma {:induction false} OrderIsAscending(ms: seq<Member>)
    ensures OrderCheck(ms).None? <==> Ascending(ms)
    decreases |ms|
  {
    if ms != [] {
      var front, last := ms[..|ms| - 1], ms[|ms| - 1];
      assert ms == front + [last];
      OrderIsAscending(front);
      if Ascending(ms) { assert forall i, j | 0 <= i < j < |front| :: front[i] == ms[i] && front[j] == ms[j]; }
      if Ascending(front) { LastAscends(front, last); }
    }
  }

  lemma {:induction false} MembersCheckNone(ms: seq<Member>)
    ensures MembersCheck(ms).None? <==> FirstTooLarge(ms).None? && Ascending(ms)
    decreases |ms|
  {
    OrderIsAscending(ms);
    NoError(ms, SizeCheck);
    if ms != [] {
      var front, last := ms[..|ms| - 1], ms[|ms| - 1];
      assert ms == front + [last];
      MembersCheckNone(front);
      OrderIsAscending(front);
      NoError(front, SizeCheck);
    }
  }

  // A group, a revision and a roster digest.

  datatype Place = Place(group: id16, revision: u64, digest: digest32)

  function PutPlace(p: Place, tail: bytes): bytes { PutLp32(p.group, PutU64(p.revision, PutLp32(p.digest, tail))) }

  function TakePlace(b: bytes): Parse<Place, Reason> {
    var (group, rest) :- TakeFixed(b, GROUP_ID_LEN);
    var (revision, rest) :- TakeU64(rest, Malformed);
    var (digest, rest) :- TakeFixed(rest, DIGEST_LEN);
    Got(Place(group, revision, digest), rest)
  }

  lemma PlaceReads(p: Place, tail: bytes)
    ensures TakePlace(PutPlace(p, tail)) == Got(p, tail)
  {
    var t1 := PutLp32(p.digest, tail);
    FixedReads(p.group, PutU64(p.revision, t1));
    TakeU64App(p.revision, t1, Malformed);
    FixedReads(p.digest, tail);
  }

  lemma PlaceOneSpelling(b: bytes)
    ensures var r := TakePlace(b); r.Got? ==> b == PutPlace(r.value, r.rest)
  {
    var g := TakeFixed(b, GROUP_ID_LEN);
    FixedOneSpelling(b, GROUP_ID_LEN);
    if g.Got? {
      var v := TakeU64(g.rest, Malformed);
      TakeU64Canonical(g.rest, Malformed);
      if v.Got? { FixedOneSpelling(v.rest, DIGEST_LEN); }
    }
  }

  lemma PlaceExtends(b: bytes, more: bytes)
    ensures Extends(Malformed, TakePlace(b), TakePlace(b + more), more)
  {
    var g := TakeFixed(b, GROUP_ID_LEN);
    FixedExtends(b, more, GROUP_ID_LEN);
    if g.Got? {
      var v := TakeU64(g.rest, Malformed);
      TakeU64Extends(g.rest, more, Malformed);
      if v.Got? { FixedExtends(v.rest, more, DIGEST_LEN); }
    }
  }

  // The roster preimage.

  /** Who may change the roster, under which policy, and whether the group is closed. */
  datatype Terms = Terms(authority: Member, policy: u32, closed: bool)

  datatype Roster = Roster(place: Place, terms: Terms, members: seq<Member>)

  function PutTerms(t: Terms, tail: bytes): bytes
    requires Fits(t.authority)
  {
    PutMember(t.authority, PutU32(t.policy, [if t.closed then 1 else 0] + tail))
  }

  function TakeTerms(b: bytes): Parse<Terms, Reason> {
    var (authority, rest) :- TakeMember(b);
    var (policy, rest) :- TakeU32(rest, Malformed);
    var (closed, rest) :- TakeU8(rest, Malformed);
    if closed > 1 then Stop(Malformed) else Got(Terms(authority, policy, closed == 1), rest)
  }

  lemma TermsRead(t: Terms, tail: bytes)
    requires Fits(t.authority)
    ensures TakeTerms(PutTerms(t, tail)) == Unless(SizeCheck(t.authority), t, tail)
  {
    var c: byte := if t.closed then 1 else 0;
    MemberReads(t.authority, PutU32(t.policy, [c] + tail));
    TakeU32App(t.policy, [c] + tail, Malformed);
    TakeU8App(c, tail, Malformed);
  }

  lemma TermsOneSpelling(b: bytes)
    ensures var r := TakeTerms(b);
            r.Got? ==> Fits(r.value.authority) && SizeCheck(r.value.authority).None? && b == PutTerms(r.value, r.rest)
  {
    var r := TakeTerms(b);
    if r.Got? {
      var a := TakeMember(b);
      var p := TakeU32(a.rest, Malformed);
      var c := TakeU8(p.rest, Malformed);
      assert p.rest == [if r.value.closed then 1 else 0] + r.rest by { TakeU8Canonical(p.rest, Malformed); }
      assert a.rest == PutU32(p.value, p.rest) by { TakeU32Canonical(a.rest, Malformed); }
      MemberOneSpelling(b);
    }
  }

  lemma TermsExtend(b: bytes, more: bytes)
    ensures Extends(Malformed, TakeTerms(b), TakeTerms(b + more), more)
  {
    var a := TakeMember(b);
    MemberExtends(b, more);
    if a.Got? {
      var p := TakeU32(a.rest, Malformed);
      TakeU32Extends(a.rest, more, Malformed);
      if p.Got? { TakeU8Extends(p.rest, more, Malformed); }
    }
  }

  /** The layout exists: every length fits its prefix. */
  predicate RosterFits(v: Roster) { Fits(v.terms.authority) && AllFit(v.members) }

  function RosterLayout(d: Domains, v: Roster): bytes
    requires RosterFits(v)
  {
    d.roster + PutPlace(v.place, PutTerms(v.terms, PutMembers(v.members, [])))
  }

  function TakeRoster(d: Domains, b: bytes): Parse<Roster, Reason> {
    var (_, rest) :- TakeDomain(b, d.roster);
    var (place, rest) :- TakePlace(rest);
    var (terms, rest) :- TakeTerms(rest);
    var (members, rest) :- TakeMembers(rest, true);
    Got(Roster(place, terms, members), rest)
  }

  function MembersLen(ms: seq<Member>): nat {
    if ms == [] then 0 else 8 + |ms[0].identity| + |ms[0].device| + MembersLen(ms[1..])
  }

  function RosterLen(v: Roster): nat {
    104 + |v.terms.authority.identity| + |v.terms.authority.device| + MembersLen(v.members)
  }

  predicate GenesisOk(v: Roster) {
    v.place.digest == seq(DIGEST_LEN, _ => 0) && !v.terms.closed && v.members == [v.terms.authority]
  }

  function ValidateRoster(v: Roster): Option<Reason> {
    if v.place.revision == RESERVED_REVISION then Some(ReservedRevision)
    else if v.terms.policy != POLICY_VERSION then Some(UnsupportedPolicy)
    else if v.place.revision == 0 && !GenesisOk(v) then Some(InvalidGenesis)
    else if |v.members| > MAX_MEMBERS then Some(TooManyMembers)
    else if SizeCheck(v.terms.authority).Some? then SizeCheck(v.terms.authority)
    else if MembersCheck(v.members).Some? then MembersCheck(v.members)
    else if RosterLen(v) > MAX_ROSTER then Some(RosterTooLarge)
    else None
  }

  function Refused<T>(e: Option<Reason>, value: T): Result<T> { if e.Some? then Err(e.value) else Ok(value) }

  /** What a decoder does with a value it has read: nothing may be left, and the value must be valid. */
  function Finish<T>(p: Parse<T, Reason>, check: T -> Option<Reason>): Result<T> {
    match p
    case Stop(e) => Err(e)
    case Got(v, rest) => if rest != [] then Err(Malformed) else Refused(check(v), v)
  }

  function DecodeRoster(d: Domains, b: bytes): Result<Roster> {
    if |b| > MAX_ROSTER then Err(RosterTooLarge) else Finish(TakeRoster(d, b), ValidateRoster)
  }

  function EncodeRoster(d: Domains, v: Roster): Result<bytes>
    requires RosterFits(v)
  {
    Refused(ValidateRoster(v), RosterLayout(d, v))
  }

  /** What the decoder checks while it reads. */
  function ReadCheck(v: Roster): Option<Reason> {
    Or(SizeCheck(v.terms.authority), Or(CountCheck(|v.members|, true), FirstTooLarge(v.members)))
  }

  lemma RosterReads(d: Domains, v: Roster)
    requires RosterFits(v)
    ensures TakeRoster(d, RosterLayout(d, v)) == Unless(ReadCheck(v), v, [])
  {
    var t1 := PutMembers(v.members, []);
    var t2 := PutTerms(v.terms, t1);
    DomainReads(d.roster, PutPlace(v.place, t2));
    PlaceReads(v.place, t2);
    TermsRead(v.terms, t1);
    MembersRead(v.members, [], true);
  }

  lemma RosterOneSpelling(d: Domains, b: bytes)
    ensures var r := TakeRoster(d, b);
            r.Got? && r.rest == [] ==> RosterFits(r.value) && b == RosterLayout(d, r.value)
  {
    var h := TakeDomain(b, d.roster);
    DomainOneSpelling(b, d.roster);
    if h.Got? {
      var p := TakePlace(h.rest);
      PlaceOneSpelling(h.rest);
      if p.Got? {
        var t := TakeTerms(p.rest);
        TermsOneSpelling(p.rest);
        if t.Got? { MembersOneSpelling(t.rest, true); }
      }
    }
  }

  lemma RosterExtends(d: Domains, b: bytes, more: bytes)
    ensures Extends(Malformed, TakeRoster(d, b), TakeRoster(d, b + more), more)
  {
    var h := TakeDomain(b, d.roster);
    DomainExtends(b, more, d.roster);
    if h.Got? {
      var p := TakePlace(h.rest);
      PlaceExtends(h.rest, more);
      if p.Got? {
        var t := TakeTerms(p.rest);
        TermsExtend(p.rest, more);
        if t.Got? { MembersExtend(t.rest, more, true); }
      }
    }
  }

  lemma PutLp32Length(x: bytes, tail: bytes)
    requires Fits32(x)
    ensures |PutLp32(x, tail)| == 4 + |x| + |tail|
  {
  }

  lemma PutMemberLength(m: Member, tail: bytes)
    requires Fits(m)
    ensures |PutMember(m, tail)| == 8 + |m.identity| + |m.device| + |tail|
  {
  }

  lemma {:induction false} PutManyLength(ms: seq<Member>, tail: bytes)
    requires forall m | m in ms :: Fits(m)
    ensures |PutMany(ms, PutMember, tail)| == MembersLen(ms) + |tail|
    decreases |ms|
  {
    if ms != [] {
      PutManyLength(ms[1..], tail);
      PutMemberLength(ms[0], PutMany(ms[1..], PutMember, tail));
    }
  }

  lemma PutPlaceLength(p: Place, tail: bytes)
    ensures |PutPlace(p, tail)| == 64 + |tail|
  {
  }

  /** The declared length is the length of the layout. */
  lemma RosterLength(d: Domains, v: Roster)
    requires Lengths(d) && RosterFits(v)
    ensures |RosterLayout(d, v)| == RosterLen(v)
  {
    var t1 := PutMembers(v.members, []);
    var t2 := PutTerms(v.terms, t1);
    PutManyLength(v.members, []);
    PutMemberLength(v.terms.authority, PutU32(v.terms.policy, [if v.terms.closed then 1 else 0] + t1));
    PutPlaceLength(v.place, t2);
  }

  /** Everything the decoder checks before validation, validation checks again. */
  lemma ValidIsRead(v: Roster)
    requires ValidateRoster(v).None?
    ensures RosterLen(v) <= MAX_ROSTER && Ascending(v.members)
    ensures ReadCheck(v).None?
  {
    MembersCheckNone(v.members);
  }

  lemma RosterFinishes(d: Domains, v: Roster, b: bytes)
    requires TakeRoster(d, b) == Unless(ReadCheck(v), v, []) && |b| == RosterLen(v)
    ensures DecodeRoster(d, b).Ok? <==> ValidateRoster(v).None?
    ensures ValidateRoster(v).None? ==> DecodeRoster(d, b) == Ok(v)
  {
    if ValidateRoster(v).None? { ValidIsRead(v); }
  }

  /** The decoder, given a value's layout: it accepts exactly what the encoder does, and gives the value back. */
  lemma RosterDecodesLayout(d: Domains, v: Roster)
    requires Lengths(d) && RosterFits(v)
    ensures DecodeRoster(d, RosterLayout(d, v)).Ok? <==> EncodeRoster(d, v).Ok?
    ensures EncodeRoster(d, v).Ok? ==> DecodeRoster(d, RosterLayout(d, v)) == Ok(v)
  {
    RosterReads(d, v);
    RosterLength(d, v);
    RosterFinishes(d, v, RosterLayout(d, v));
  }

  /** What the decoder accepts is the encoding of what it returns, and its members ascend by identity. */
  lemma RosterAccepted(d: Domains, b: bytes)
    requires Lengths(d) && DecodeRoster(d, b).Ok?
    ensures var v := DecodeRoster(d, b).value; RosterFits(v) && EncodeRoster(d, v) == Ok(b) && Ascending(v.members)
  {
    RosterOneSpelling(d, b);
    ValidIsRead(DecodeRoster(d, b).value);
  }

  lemma RosterPrefix(d: Domains, b: bytes, n: nat)
    requires DecodeRoster(d, b).Ok? && n < |b|
    ensures DecodeRoster(d, b[..n]) == Err(Malformed)
  {
    RosterExtends(d, b[..n], b[n..]);
    PrefixIsShort(x => TakeRoster(d, x), Malformed, b, n);
  }
}
