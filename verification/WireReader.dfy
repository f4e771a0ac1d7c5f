/**
  The reader of the wire reference: an object with a position that every decoder drives,
  and the decoders of the seven formats proved to compute the functions of `Wire` and
  `WireFormats`.
 */
module WireReader {
  import opened Bytes
  import opened Wire
  import opened WireFormats

  /** A reading method did what a read of what was left does. */
  ghost predicate Did<T>(p: Parse<T, Reason>, r: Result<T>, left: bytes) {
    && (p.Stop? ==> r == Err(p.why))
    && (p.Got? ==> r == Ok(p.value) && left == p.rest)
  }

  class Reader {
    const data: bytes
    var pos: nat

    ghost predicate Valid()
      reads this
    {
      pos <= |data|
    }

    function Left(): bytes
      reads this
      requires Valid()
    {
      data[pos..]
    }

    constructor (data: bytes)
      ensures Valid() && Left() == data
    {
      this.data := data;
      pos := 0;
    }

    method Read(n: nat) returns (r: Result<bytes>)
      requires Valid()
      modifies this
      ensures Valid() && Did(Take(old(Left()), n, Malformed), r, Left())
    {
      if |data| - pos < n { return Err(Malformed); }
      var out := data[pos..pos + n];
      assert out == Left()[..n];
      pos := pos + n;
      return Ok(out);
    }

    method ReadByte() returns (r: Result<byte>)
      requires Valid()
      modifies this
      ensures Valid() && Did(TakeU8(old(Left()), Malformed), r, Left())
    {
      var b := Read(1);
      if b.Err? { return Err(b.reason); }
      return Ok(b.value[0]);
    }

    method ReadU16() returns (r: Result<u16>)
      requires Valid()
      modifies this
      ensures Valid() && Did(TakeU16(old(Left()), Malformed), r, Left())
    {
      var b := Read(2);
      if b.Err? { return Err(b.reason); }
      return Ok(N16(b.value));
    }

    method ReadU32() returns (r: Result<u32>)
      requires Valid()
      modifies this
      ensures Valid() && Did(TakeU32(old(Left()), Malformed), r, Left())
    {
      var b := Read(4);
      if b.Err? { return Err(b.reason); }
      return Ok(N32(b.value));
    }

    method ReadU64() returns (r: Result<u64>)
      requires Valid()
      modifies this
      ensures Valid() && Did(TakeU64(old(Left()), Malformed), r, Left())
    {
      var b := Read(8);
      if b.Err? { return Err(b.reason); }
      return Ok(N64(b.value));
    }

    method ReadLp32() returns (r: Result<bytes>)
      requires Valid()
      modifies this
      ensures Valid() && Did(TakeLp32(old(Left()), Malformed), r, Left())
    {
      var n := ReadU32();
      if n.Err? { return Err(n.reason); }
      r := Read(n.value);
    }

    method ReadLp16() returns (r: Result<bytes>)
      requires Valid()
      modifies this
      ensures Valid() && Did(TakeLp16(old(Left()), Malformed), r, Left())
    {
      var n := ReadU16();
      if n.Err? { return Err(n.reason); }
      r := Read(n.value);
    }

    method ReadFixed(n: nat) returns (r: Result<bytes>)
      requires Valid()
      modifies this
      ensures Valid() && Did(TakeFixed(old(Left()), n), r, Left())
    {
      r := ReadLp32();
      if r.Ok? && |r.value| != n { return Err(Malformed); }
    }

    method ReadMember() returns (r: Result<Member>)
      requires Valid()
      modifies this
      ensures Valid() && Did(TakeMember(old(Left())), r, Left())
    {
      var identity := ReadLp32();
      if identity.Err? { return Err(identity.reason); }
      var device := ReadLp32();
      if device.Err? { return Err(device.reason); }
      if |identity.value| > MAX_IDENTITY { return Err(IdentityTooLarge); }
      if |device.value| > MAX_DEVICE { return Err(DeviceTooLarge); }
      return Ok(Member(identity.value, device.value));
    }

    method ReadDomain(domain: bytes) returns (r: Result<()>)
      requires Valid()
      modifies this
      ensures Valid() && Did(TakeDomain(old(Left()), domain), r, Left())
    {
      var x := Read(|domain|);
      if x.Err? { return Err(x.reason); }
      if x.value != domain { return Err(Malformed); }
      return Ok(());
    }

    method ReadMembers(empty: bool) returns (r: Result<seq<Member>>)
      requires Valid()
      modifies this
      ensures Valid() && Did(TakeMembers(old(Left()), empty), r, Left())
    {
      var count := ReadU32();
      if count.Err? { return Err(count.reason); }
      if count.value == 0 && !empty { return Err(EmptyRecipients); }
      if count.value > MAX_MEMBERS { return Err(TooManyMembers); }
      r := ReadAll(count.value, TakeMember);
    }

    method ReadNext(ghost take: bytes -> Parse<Member, Reason>) returns (r: Result<Member>)
      requires Valid() && Reads(take)
      modifies this
      ensures Valid() && Did(take(old(Left())), r, Left())
    {
      r := ReadMember();
    }

    method ReadAll(count: nat, ghost take: bytes -> Parse<Member, Reason>) returns (r: Result<seq<Member>>)
      requires Valid() && Reads(take)
      modifies this
      ensures Valid() && Did(TakeMany(old(Left()), count, take), r, Left())
    {
      if count == 0 { return Ok([]); }
      var m := ReadNext(take);
      if m.Err? { return Err(m.reason); }
      var ms := ReadAll(count - 1, take);
      if ms.Err? { return ms; }
      return Ok([m.value] + ms.value);
    }
  }

  /** `take` reads a member. */
  ghost predicate Reads(take: bytes -> Parse<Member, Reason>) {
    forall b: bytes {:trigger TakeMember(b)} :: take(b) == TakeMember(b)
  }

  /** The member rules of a roster, one member after another. */
  method CheckMembers(ms: seq<Member>) returns (r: Option<Reason>)
    ensures r == MembersCheck(ms)
  {
    assert ms[..0] == [];
    for i := 0 to |ms|
      invariant MembersCheck(ms[..i]).None?
    {
      var m := ms[i];
      assert ms[..i + 1][..i] == ms[..i];
      StopsThere(ms, i + 1);
      if |m.identity| > MAX_IDENTITY { return Some(IdentityTooLarge); }
      if |m.device| > MAX_DEVICE { return Some(DeviceTooLarge); }
      if i > 0 && !MemberLt(ms[i - 1], m) { return Some(NonCanonical); }
      if exists e | e in ms[..i] :: e.identity == m.identity { return Some(NonCanonical); }
    }
    assert ms[..|ms|] == ms;
    return None;
  }

  /** The first member at fault settles the check. */
  lemma {:induction false} StopsThere(ms: seq<Member>, n: nat)
    requires n <= |ms|
    ensures MembersCheck(ms[..n]).Some? ==> MembersCheck(ms) == MembersCheck(ms[..n])
    decreases |ms| - n
  {
    if n == |ms| {
      assert ms[..n] == ms;
    } else {
      assert ms[..n + 1][..n] == ms[..n];
      StopsThere(ms, n + 1);
    }
  }

  method Length(v: Wire.Roster) returns (n: nat)
    ensures n == RosterLen(v)
  {
    n := 104 + |v.terms.authority.identity| + |v.terms.authority.device|;
    assert v.members[0..] == v.members;
    for i := 0 to |v.members|
      invariant n + MembersLen(v.members[i..]) == RosterLen(v)
    {
      assert v.members[i..][1..] == v.members[i + 1..];
      n := n + 8 + |v.members[i].identity| + |v.members[i].device|;
    }
    assert v.members[|v.members|..] == [];
  }

  method Validate(v: Wire.Roster) returns (e: Option<Reason>)
    ensures e == ValidateRoster(v)
  {
    if v.place.revision == RESERVED_REVISION { return Some(ReservedRevision); }
    if v.terms.policy != POLICY_VERSION { return Some(UnsupportedPolicy); }
    if v.place.revision == 0 {
      if v.place.digest != seq(DIGEST_LEN, _ => 0) { return Some(InvalidGenesis); }
      if v.terms.closed { return Some(InvalidGenesis); }
      if v.members != [v.terms.authority] { return Some(InvalidGenesis); }
    }
    if |v.members| > MAX_MEMBERS { return Some(TooManyMembers); }
    e := SizeCheck(v.terms.authority);
    if e.Some? { return e; }
    e := CheckMembers(v.members);
    if e.Some? { return e; }
    var n := Length(v);
    if n > MAX_ROSTER { return Some(RosterTooLarge); }
  }

  method ReadPlace(r: Reader) returns (p: Result<Place>)
    requires r.Valid()
    modifies r
    ensures r.Valid() && Did(TakePlace(old(r.Left())), p, r.Left())
  {
    var group := r.ReadFixed(GROUP_ID_LEN);
    if group.Err? { return Err(group.reason); }
    var revision := r.ReadU64();
    if revision.Err? { return Err(revision.reason); }
    var digest := r.ReadFixed(DIGEST_LEN);
    if digest.Err? { return Err(digest.reason); }
    return Ok(Place(group.value, revision.value, digest.value));
  }

  method ReadTerms(r: Reader) returns (t: Result<Terms>)
    requires r.Valid()
    modifies r
    ensures r.Valid() && Did(TakeTerms(old(r.Left())), t, r.Left())
  {
    var authority := r.ReadMember();
    if authority.Err? { return Err(authority.reason); }
    var policy := r.ReadU32();
    if policy.Err? { return Err(policy.reason); }
    var closed := r.ReadByte();
    if closed.Err? { return Err(closed.reason); }
    if closed.value != 0 && closed.value != 1 { return Err(Malformed); }
    return Ok(Terms(authority.value, policy.value, closed.value == 1));
  }

  method Roster(d: Domains, data: bytes) returns (v: Result<Wire.Roster>)
    ensures v == DecodeRoster(d, data)
  {
    if |data| > MAX_ROSTER { return Err(RosterTooLarge); }
    var r := new Reader(data);
    var domain := r.ReadDomain(d.roster);
    if domain.Err? { return Err(domain.reason); }
    var place := ReadPlace(r);
    if place.Err? { return Err(place.reason); }
    var terms := ReadTerms(r);
    if terms.Err? { return Err(terms.reason); }
    var members := r.ReadMembers(true);
    if members.Err? { return Err(members.reason); }
    if r.pos != |r.data| { return Err(Malformed); }
    var roster := Wire.Roster(place.value, terms.value, members.value);
    var refusal := Validate(roster);
    if refusal.Some? { return Err(refusal.value); }
    return Ok(roster);
  }

  method Context(d: Domains, data: bytes) returns (v: Result<WireFormats.Context>)
    ensures v == DecodeContext(d, data)
  {
    if |data| > MAX_CONTEXT { return Err(ContextTooLarge); }
    var r := new Reader(data);
    var domain := r.ReadDomain(d.context);
    if domain.Err? { return Err(domain.reason); }
    var place := ReadPlace(r);
    if place.Err? { return Err(place.reason); }
    var sender := r.ReadMember();
    if sender.Err? { return Err(sender.reason); }
    var recipient := r.ReadMember();
    if recipient.Err? { return Err(recipient.reason); }
    var sequence := r.ReadU64();
    if sequence.Err? { return Err(sequence.reason); }
    var payload := r.ReadLp32();
    if payload.Err? { return Err(payload.reason); }
    if r.pos != |r.data| { return Err(Malformed); }
    var context := WireFormats.Context(place.value, sender.value, recipient.value, sequence.value, payload.value);
    var refusal := ValidateContext(context);
    if refusal.Some? { return Err(refusal.value); }
    return Ok(context);
  }

  method Acknowledgement(domain: bytes, data: bytes) returns (v: Result<Ack>)
    ensures v == DecodeAck(domain, data)
  {
    var r := new Reader(data);
    var d := r.ReadDomain(domain);
    if d.Err? { return Err(d.reason); }
    var group := r.Read(GROUP_ID_LEN);
    if group.Err? { return Err(group.reason); }
    var invitation := r.Read(INVITATION_ID_LEN);
    if invitation.Err? { return Err(invitation.reason); }
    var revision := r.ReadU64();
    if revision.Err? { return Err(revision.reason); }
    var digest := r.Read(DIGEST_LEN);
    if digest.Err? { return Err(digest.reason); }
    if r.pos != |r.data| { return Err(Malformed); }
    if revision.value == RESERVED_REVISION { return Err(ReservedRevision); }
    return Ok(Ack(group.value, invitation.value, revision.value, digest.value));
  }

  /** Order and distinct identities, one recipient after another. */
  method CheckOrder(ms: seq<Member>) returns (r: Option<Reason>)
    ensures r == OrderCheck(ms)
  {
    assert ms[..0] == [];
    for i := 0 to |ms|
      invariant OrderCheck(ms[..i]).None?
    {
      assert ms[..i + 1][..i] == ms[..i];
      OrderStopsThere(ms, i + 1);
      if OutOfOrder(ms[..i], ms[i]) { return Some(NonCanonical); }
    }
    assert ms[..|ms|] == ms;
    return None;
  }

  lemma {:induction false} OrderStopsThere(ms: seq<Member>, n: nat)
    requires n <= |ms|
    ensures OrderCheck(ms[..n]).Some? ==> OrderCheck(ms) == OrderCheck(ms[..n])
    decreases |ms| - n
  {
    if n == |ms| {
      assert ms[..n] == ms;
    } else {
      assert ms[..n + 1][..n] == ms[..n];
      OrderStopsThere(ms, n + 1);
    }
  }

  method ReadSender(r: Reader) returns (s: Result<(bytes, u64, Member)>)
    requires r.Valid()
    modifies r
    ensures r.Valid() && Did(TakeSender(old(r.Left())), s, r.Left())
  {
    var group := r.ReadFixed(GROUP_ID_LEN);
    if group.Err? { return Err(group.reason); }
    var revision := r.ReadU64();
    if revision.Err? { return Err(revision.reason); }
    var sender := r.ReadMember();
    if sender.Err? { return Err(sender.reason); }
    return Ok((group.value, revision.value, sender.value));
  }

  method ReadContent(r: Reader) returns (c: Result<(u64, bytes, bytes)>)
    requires r.Valid()
    modifies r
    ensures r.Valid() && Did(TakeContent(old(r.Left())), c, r.Left())
  {
    var sequence := r.ReadU64();
    if sequence.Err? { return Err(sequence.reason); }
    var digest := r.ReadFixed(DIGEST_LEN);
    if digest.Err? { return Err(digest.reason); }
    var payload := r.ReadLp32();
    if payload.Err? { return Err(payload.reason); }
    if |payload.value| > MAX_PAYLOAD { return Err(PayloadTooLarge); }
    return Ok((sequence.value, digest.value, payload.value));
  }

  method LogicalSend(d: Domains, data: bytes) returns (v: Result<Intent>)
    ensures v == DecodeIntent(d, data)
  {
    var r := new Reader(data);
    var domain := r.ReadDomain(d.intent);
    if domain.Err? { return Err(domain.reason); }
    var s := ReadSender(r);
    if s.Err? { return Err(s.reason); }
    var c := ReadContent(r);
    if c.Err? { return Err(c.reason); }
    var recipients := r.ReadMembers(false);
    if recipients.Err? { return Err(recipients.reason); }
    if r.pos != |r.data| { return Err(Malformed); }
    var order := CheckOrder(recipients.value);
    if order.Some? { return Err(order.value); }
    if s.value.1 == RESERVED_REVISION { return Err(ReservedRevision); }
    return Ok(Intent(s.value.0, s.value.1, s.value.2, c.value.0, c.value.1, c.value.2, recipients.value));
  }

  method ReadTarget(r: Reader) returns (t: Result<(bytes, bytes, Member)>)
    requires r.Valid()
    modifies r
    ensures r.Valid() && Did(TakeTarget(old(r.Left())), t, r.Left())
  {
    var invitation := r.Read(INVITATION_ID_LEN);
    if invitation.Err? { return Err(invitation.reason); }
    var group := r.Read(GROUP_ID_LEN);
    if group.Err? { return Err(group.reason); }
    var identity := r.ReadLp16();
    if identity.Err? { return Err(identity.reason); }
    var device := r.ReadLp16();
    if device.Err? { return Err(device.reason); }
    return Ok((invitation.value, group.value, Member(identity.value, device.value)));
  }

  method ReadOffer(r: Reader) returns (o: Result<(u64, bytes, u32, u64)>)
    requires r.Valid()
    modifies r
    ensures r.Valid() && Did(TakeOffer(old(r.Left())), o, r.Left())
  {
    var revision := r.ReadU64();
    if revision.Err? { return Err(revision.reason); }
    var digest := r.Read(DIGEST_LEN);
    if digest.Err? { return Err(digest.reason); }
    var policy := r.ReadU32();
    if policy.Err? { return Err(policy.reason); }
    var expires := r.ReadU64();
    if expires.Err? { return Err(expires.reason); }
    return Ok((revision.value, digest.value, policy.value, expires.value));
  }

  method Invitation(d: Domains, data: bytes) returns (v: Result<Bootstrap>)
    ensures v == DecodeBootstrap(d, data)
  {
    var r := new Reader(data);
    var domain := r.ReadDomain(d.bootstrap);
    if domain.Err? { return Err(domain.reason); }
    var t := ReadTarget(r);
    if t.Err? { return Err(t.reason); }
    var o := ReadOffer(r);
    if o.Err? { return Err(o.reason); }
    var preimage := r.ReadLp32();
    if preimage.Err? { return Err(preimage.reason); }
    var roster := Roster(d, preimage.value);
    if roster.Err? { return Err(roster.reason); }
    if r.pos != |r.data| { return Err(Malformed); }
    if o.value.0 == RESERVED_REVISION { return Err(ReservedRevision); }
    if o.value.2 != POLICY_VERSION { return Err(UnsupportedPolicy); }
    if |t.value.2.identity| > MAX_IDENTITY { return Err(IdentityTooLarge); }
    if |t.value.2.device| > MAX_DEVICE { return Err(DeviceTooLarge); }
    if t.value.1 != roster.value.place.group { return Err(Conflict); }
    if o.value.0 != roster.value.place.revision { return Err(Conflict); }
    if o.value.2 != roster.value.terms.policy { return Err(Conflict); }
    return Ok(Bootstrap(t.value.0, t.value.1, t.value.2, o.value.0, o.value.1, o.value.2, o.value.3, roster.value));
  }

  method Variant(d: Domains, tag: byte, value: bytes) returns (v: Result<Payload>)
    ensures v == DecodeVariant(d, tag, value)
  {
    if tag == 1 {
      var x := Context(d, value);
      return if x.Err? then Err(x.reason) else Ok(OfContext(x.value));
    } else if tag == 2 {
      var x := Roster(d, value);
      return if x.Err? then Err(x.reason) else Ok(OfRoster(x.value));
    } else if tag == 3 {
      var x := Invitation(d, value);
      return if x.Err? then Err(x.reason) else Ok(OfBootstrap(x.value));
    } else if tag == 4 {
      var x := Acknowledgement(d.acceptance, value);
      return if x.Err? then Err(x.reason) else Ok(OfAcceptance(x.value));
    } else if tag == 5 {
      var x := Acknowledgement(d.revocation, value);
      return if x.Err? then Err(x.reason) else Ok(OfRevocation(x.value));
    }
    return Err(Malformed);
  }

  method GroupPayload(d: Domains, data: bytes) returns (v: Result<Payload>)
    ensures v == DecodePayload(d, data)
  {
    if |data| > MAX_GROUP_PAYLOAD || !(d.payload <= data) { return Err(Malformed); }
    var r := new Reader(data);
    var domain := r.Read(|d.payload|);
    ghost var rest := r.Left();
    assert rest == data[|d.payload|..];
    var tag := r.ReadByte();
    if tag.Err? { return Err(tag.reason); }
    assert r.Left() == rest[1..];
    var length := r.ReadU32();
    if length.Err? { return Err(length.reason); }
    assert r.Left() == rest[5..] && rest[1..][..4] == rest[1..5];
    if |r.data| - r.pos != length.value { return Err(Malformed); }
    var value := r.Read(length.value);
    assert value.Ok? && value.value == rest[5..];
    v := Variant(d, tag.value, value.value);
  }

  /** The domain strings of version 1. */
  const V1: Domains := Domains(
    Ascii("Tacenta Group Roster v1"),
    Ascii("Tacenta Group Application v1"),
    Ascii("Tacenta Group Invitation Bootstrap v1"),
    Ascii("Tacenta Group Invitation Acceptance v1"),
    Ascii("Tacenta Group Invitation Revocation v1"),
    Ascii("Tacenta Group Payload v1"),
    Ascii("Tacenta Group Logical Send v1"))

  function Ascii(s: string): (b: bytes)
    ensures |b| == |s|
  {
    seq(|s|, i requires 0 <= i < |s| => (s[i] as int) % 0x100)
  }

  /** They have the lengths the length formulas are written for. */
  lemma V1HasItsLengths()
    ensures Lengths(V1)
  {
  }
}
