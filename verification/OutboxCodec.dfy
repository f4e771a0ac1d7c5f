/**
  The durable state of the control outbox: one byte string for every well-formed
  outbox, and nothing else accepted.
 */
module OutboxCodec {
  import opened Bytes
  import opened Order
  import opened Outbox

  // "Tacenta Group Control Outbox State v2"
  const DOMAIN: bytes := [0x54, 0x61, 0x63, 0x65, 0x6E, 0x74, 0x61, 0x20, 0x47, 0x72, 0x6F, 0x75, 0x70, 0x20, 0x43,
                          0x6F, 0x6E, 0x74, 0x72, 0x6F, 0x6C, 0x20, 0x4F, 0x75, 0x74, 0x62, 0x6F, 0x78, 0x20, 0x53,
                          0x74, 0x61, 0x74, 0x65, 0x20, 0x76, 0x32]

  function DispositionByte(d: Disposition): byte {
    match d
    case Prepared => 0
    case HandedOff => 1
    case RelayAccepted => 2
    case ExhaustedUnknown => 3
    case Cancelled => 4
    case CancelledAfterHandoff => 5
  }

  function DispositionOf(b: byte): Option<Disposition> {
    if b == 0 then Some(Prepared)
    else if b == 1 then Some(HandedOff)
    else if b == 2 then Some(RelayAccepted)
    else if b == 3 then Some(ExhaustedUnknown)
    else if b == 4 then Some(Cancelled)
    else if b == 5 then Some(CancelledAfterHandoff)
    else None
  }

  predicate Fits(h: Handoff) {
    Fits32(h.recipient.identity) && Fits32(h.recipient.device) && Fits32(h.payload) && Fits32(h.ciphertext)
  }

  function PutStatus(h: Handoff, tail: bytes): bytes {
    [h.attempts] + ([DispositionByte(h.disposition)] + PutU64(h.sequence, tail))
  }

  function PutHandoff(h: Handoff, tail: bytes): bytes
    requires Fits(h)
  {
    PutLp32(h.recipient.identity, PutLp32(h.recipient.device,
      PutLp32(h.payload, PutLp32(h.ciphertext, PutStatus(h, tail)))))
  }

  /** What one decoded entry must satisfy. */
  predicate WellFormed(env: Env, h: Handoff) {
    && |h.recipient.identity| <= MAX_IDENTITY_LEN && |h.recipient.device| <= MAX_DEVICE_LEN
    && Consistent(h) && env.kind(h.payload) != Other
  }

  function TakeStatus(b: bytes): Parse<(u8, Disposition, u64), ()> {
    var (attempts, rest) :- TakeU8(b, ());
    var (code, rest) :- TakeU8(rest, ());
    var d := DispositionOf(code);
    if d.None? then Stop(()) else
    var (sequence, rest) :- TakeU64(rest, ());
    Got((attempts, d.value, sequence), rest)
  }

  function TakeFields(b: bytes): Parse<Handoff, ()> {
    var (identity, rest) :- TakeLp32(b, ());
    var (device, rest) :- TakeLp32(rest, ());
    var (payload, rest) :- TakeLp32(rest, ());
    var (ciphertext, rest) :- TakeLp32(rest, ());
    var (status, rest) :- TakeStatus(rest);
    Got(Handoff(Member(identity, device), payload, ciphertext, status.0, status.1, status.2), rest)
  }

  function TakeHandoff(env: Env, b: bytes): Parse<Handoff, ()> {
    var (h, rest) :- TakeFields(b);
    if WellFormed(env, h) then Got(h, rest) else Stop(())
  }

  function Taker(env: Env): bytes -> Parse<Handoff, ()> { b => TakeHandoff(env, b) }

  predicate AllFit(xs: seq<Handoff>) { forall h | h in xs :: Fits(h) }

  predicate Bounded(xs: seq<Handoff>) { Live(xs) <= MAX_LIVE_HANDOFFS && Finished(xs) <= MAX_TERMINAL_HANDOFFS }

  function Layout(xs: seq<Handoff>): bytes
    requires AllFit(xs) && |xs| < 0x100
  {
    DOMAIN + ([|xs|] + PutMany(xs, PutHandoff, []))
  }

  lemma {:induction false} LiveAndFinished(xs: seq<Handoff>)
    ensures Live(xs) + Finished(xs) == |xs|
  {
    if xs != [] { LiveAndFinished(xs[..|xs| - 1]); }
  }

  lemma SortedFits(env: Env, xs: seq<Handoff>)
    requires AllFit(xs)
    ensures AllFit(Sort(xs, Canonical(env)))
  {
    var ys := Sort(xs, Canonical(env));
    forall h | h in ys ensures Fits(h) { SameElements(ys, xs, h); }
  }

  function EncodeSpec(env: Env, xs: seq<Handoff>): Result<bytes> {
    LiveAndFinished(xs);
    if !Bounded(xs) then Err(OutboxFull)
    else if !AllFit(xs) then Err(Malformed)
    else
      SortedFits(env, xs);
      Ok(Layout(Sort(xs, Canonical(env))))
  }

  predicate Clash(env: Env, a: Handoff, b: Handoff) {
    a.sequence == b.sequence || Matches(env, a, b.recipient, b.payload)
  }

  predicate Distinct(env: Env, xs: seq<Handoff>) {
    forall i, j | 0 <= i < j < |xs| :: !Clash(env, xs[i], xs[j])
  }

  function DecodeSpec(env: Env, b: bytes): Result<seq<Handoff>> {
    if !(DOMAIN <= b) || |b| == |DOMAIN| then Err(Malformed)
    else
      var count := b[|DOMAIN|];
      if count > MAX_LIVE_HANDOFFS + MAX_TERMINAL_HANDOFFS then Err(OutboxFull)
      else
        var p := TakeMany(b[|DOMAIN| + 1..], count, Taker(env));
        if p.Stop? || !Distinct(env, p.value) || p.rest != [] then Err(Malformed)
        else
          var canonical := EncodeSpec(env, p.value);
          if canonical.Err? then Err(canonical.error)
          else if canonical.value != b then Err(NonCanonical)
          else Ok(p.value)
  }

  // One entry.

  lemma StatusReadsBack(h: Handoff, tail: bytes)
    ensures TakeStatus(PutStatus(h, tail)) == Got((h.attempts, h.disposition, h.sequence), tail)
  {
    TakeU8App(h.attempts, [DispositionByte(h.disposition)] + PutU64(h.sequence, tail), ());
    TakeU8App(DispositionByte(h.disposition), PutU64(h.sequence, tail), ());
    TakeU64App(h.sequence, tail, ());
  }

  lemma HandoffReadsBack(env: Env, h: Handoff, tail: bytes)
    requires Fits(h) && WellFormed(env, h)
    ensures TakeHandoff(env, PutHandoff(h, tail)) == Got(h, tail)
  {
    var t1 := PutStatus(h, tail);
    var t2 := PutLp32(h.ciphertext, t1);
    var t3 := PutLp32(h.payload, t2);
    var t4 := PutLp32(h.recipient.device, t3);
    TakeLp32App(h.recipient.identity, t4, ());
    TakeLp32App(h.recipient.device, t3, ());
    TakeLp32App(h.payload, t2, ());
    TakeLp32App(h.ciphertext, t1, ());
    StatusReadsBack(h, tail);
  }

  lemma StatusOneSpelling(b: bytes, h: Handoff)
    requires var r := TakeStatus(b); r.Got? && r.value == (h.attempts, h.disposition, h.sequence)
    ensures b == PutStatus(h, TakeStatus(b).rest)
  {
    var a := TakeU8(b, ());
    var d := TakeU8(a.rest, ());
    TakeU8Canonical(b, ());
    TakeU8Canonical(a.rest, ());
    TakeU64Canonical(d.rest, ());
  }

  lemma HandoffOneSpelling(env: Env, b: bytes)
    ensures var r := TakeHandoff(env, b);
            r.Got? ==> Fits(r.value) && WellFormed(env, r.value) && b == PutHandoff(r.value, r.rest)
  {
    var r := TakeHandoff(env, b);
    if r.Got? {
      var i := TakeLp32(b, ());
      var d := TakeLp32(i.rest, ());
      var p := TakeLp32(d.rest, ());
      var c := TakeLp32(p.rest, ());
      TakeLp32Canonical(b, ());
      TakeLp32Canonical(i.rest, ());
      TakeLp32Canonical(d.rest, ());
      TakeLp32Canonical(p.rest, ());
      StatusOneSpelling(c.rest, r.value);
    }
  }

  // The whole state.

  /** Everything a reachable outbox has, and everything an accepted state has. */
  ghost predicate Good(env: Env, xs: seq<Handoff>) {
    && Bounded(xs) && AllFit(xs) && (forall h | h in xs :: WellFormed(env, h))
    && Strict(xs, Canonical(env)) && Distinct(env, xs)
  }

  lemma TakerReadsBack(env: Env)
    ensures ReadsBack(PutHandoff, Taker(env), h => Fits(h) && WellFormed(env, h))
    ensures OneSpelling(PutHandoff, Taker(env), h => Fits(h) && WellFormed(env, h))
  {
    forall h, tail | Fits(h) && WellFormed(env, h) ensures Taker(env)(PutHandoff(h, tail)) == Got(h, tail)
    {
      HandoffReadsBack(env, h, tail);
    }
    forall b: bytes | Taker(env)(b).Got?
      ensures var r := Taker(env)(b); Fits(r.value) && WellFormed(env, r.value) && b == PutHandoff(r.value, r.rest)
    {
      HandoffOneSpelling(env, b);
    }
  }

  predicate Ok32(env: Env, h: Handoff) { Fits(h) && WellFormed(env, h) }

  lemma EntriesReadBack(env: Env, xs: seq<Handoff>, tail: bytes)
    requires forall h | h in xs :: Ok32(env, h)
    ensures AllFit(xs) && TakeMany(PutMany(xs, PutHandoff, tail), |xs|, Taker(env)) == Got(xs, tail)
  {
    TakerReadsBack(env);
    TakeManyReadsBack(xs, PutHandoff, Taker(env), h => Fits(h) && WellFormed(env, h), tail);
  }

  lemma EntriesOneSpelling(env: Env, b: bytes, n: nat)
    ensures var r := TakeMany(b, n, Taker(env));
            r.Got? ==>
              (forall h | h in r.value :: Ok32(env, h)) && AllFit(r.value)
              && b == PutMany(r.value, PutHandoff, r.rest)
  {
    TakerReadsBack(env);
    TakeManyOneSpelling(b, n, PutHandoff, Taker(env), h => Fits(h) && WellFormed(env, h));
  }

  lemma LayoutParts(xs: seq<Handoff>)
    requires AllFit(xs) && |xs| < 0x100
    ensures DOMAIN <= Layout(xs) && |Layout(xs)| > |DOMAIN| && Layout(xs)[|DOMAIN|] == |xs|
    ensures Layout(xs)[|DOMAIN| + 1..] == PutMany(xs, PutHandoff, [])
  {
    var rest := PutMany(xs, PutHandoff, []);
    assert Layout(xs) == DOMAIN + [|xs|] + rest;
  }

  /** Different well-formed entries never share a layout. */
  lemma LayoutsTell(env: Env, xs: seq<Handoff>, ys: seq<Handoff>)
    requires (forall h | h in xs :: Ok32(env, h)) && (forall h | h in ys :: Ok32(env, h))
    requires |xs| == |ys| && AllFit(xs) && AllFit(ys) && PutMany(xs, PutHandoff, []) == PutMany(ys, PutHandoff, [])
    ensures xs == ys
  {
    EntriesReadBack(env, xs, []);
    EntriesReadBack(env, ys, []);
  }

  /** Sorted without clashes is strictly in order; strictly in order with distinct numbers has no clashes. */
  lemma SortedDistinctIsStrict(env: Env, xs: seq<Handoff>)
    requires Sort(xs, Canonical(env)) == xs && Distinct(env, xs)
    ensures Strict(xs, Canonical(env))
  {
    var le := Canonical(env);
    CanonicalIsAnOrder(env);
    SortSorted(xs, le);
    forall i, j | 0 <= i < j < |xs| ensures !le(xs[j], xs[i]) {
      assert le(xs[i], xs[j]) && !Clash(env, xs[i], xs[j]);
      KeyTotal(KeyOf(env, xs[i]), KeyOf(env, xs[j]));
    }
  }

  lemma StrictSortsToItself(env: Env, xs: seq<Handoff>)
    requires Strict(xs, Canonical(env))
    ensures Sort(xs, Canonical(env)) == xs
  {
    CanonicalIsAnOrder(env);
    StrictIsSorted(xs, Canonical(env));
    SortOfSorted(xs, Canonical(env));
  }

  lemma GoodEncodes(env: Env, xs: seq<Handoff>)
    requires Good(env, xs)
    ensures |xs| < 0x100 && EncodeSpec(env, xs) == Ok(Layout(xs))
  {
    LiveAndFinished(xs);
    StrictSortsToItself(env, xs);
  }

  lemma DecodeFrom(env: Env, b: bytes, xs: seq<Handoff>)
    requires DOMAIN <= b && |b| > |DOMAIN| && b[|DOMAIN|] == |xs| <= 24
    requires TakeMany(b[|DOMAIN| + 1..], |xs|, Taker(env)) == Got(xs, []) && Distinct(env, xs)
             && EncodeSpec(env, xs) == Ok(b)
    ensures DecodeSpec(env, b) == Ok(xs)
  {
  }

  /** Every well-formed outbox survives the round trip. */
  lemma GoodRoundTrips(env: Env, xs: seq<Handoff>)
    requires Good(env, xs)
    ensures EncodeSpec(env, xs).Ok? && DecodeSpec(env, EncodeSpec(env, xs).value) == Ok(xs)
  {
    GoodEncodes(env, xs);
    LiveAndFinished(xs);
    LayoutParts(xs);
    EntriesReadBack(env, xs, []);
    DecodeFrom(env, Layout(xs), xs);
  }

  lemma DecodedEntries(env: Env, b: bytes)
    requires DecodeSpec(env, b).Ok?
    ensures |b| > |DOMAIN| && b[|DOMAIN|] <= 24
    ensures TakeMany(b[|DOMAIN| + 1..], b[|DOMAIN|], Taker(env)) == Got(DecodeSpec(env, b).value, [])
    ensures var xs := DecodeSpec(env, b).value; Distinct(env, xs) && Bounded(xs) && EncodeSpec(env, xs) == Ok(b)
  {
  }

  lemma SameLayoutSameEntries(env: Env, xs: seq<Handoff>, ys: seq<Handoff>, b: bytes)
    requires (forall h | h in xs :: Ok32(env, h)) && AllFit(xs) && AllFit(ys)
    requires multiset(ys) == multiset(xs) && |ys| == |xs| < 0x100 && b == Layout(ys)
    requires b[|DOMAIN| + 1..] == PutMany(xs, PutHandoff, [])
    ensures ys == xs
  {
    LayoutParts(ys);
    forall h | h in ys ensures Ok32(env, h) { SameElements(ys, xs, h); }
    LayoutsTell(env, xs, ys);
  }

  /** Nothing but the encoding of a well-formed outbox is accepted. */
  lemma AcceptedIsGood(env: Env, b: bytes)
    requires DecodeSpec(env, b).Ok?
    ensures Good(env, DecodeSpec(env, b).value) && EncodeSpec(env, DecodeSpec(env, b).value) == Ok(b)
  {
    DecodedEntries(env, b);
    var xs := DecodeSpec(env, b).value;
    EntriesOneSpelling(env, b[|DOMAIN| + 1..], b[|DOMAIN|]);
    LiveAndFinished(xs);
    SortedFits(env, xs);
    SameLayoutSameEntries(env, xs, Sort(xs, Canonical(env)), b);
    SortedDistinctIsStrict(env, xs);
  }

  /** One entry, field by field. */
  lemma HandoffBytes(h: Handoff)
    requires Fits(h)
    ensures PutHandoff(h, []) ==
            U32(|h.recipient.identity|) + h.recipient.identity + U32(|h.recipient.device|) + h.recipient.device
            + U32(|h.payload|) + h.payload + U32(|h.ciphertext|) + h.ciphertext
            + [h.attempts,
               match h.disposition
               case Prepared => 0
               case HandedOff => 1
               case RelayAccepted => 2
               case ExhaustedUnknown => 3
               case Cancelled => 4
               case CancelledAfterHandoff => 5]
            + U64(h.sequence)
  {
    var code := DispositionByte(h.disposition);
    assert PutStatus(h, []) == [h.attempts, code] + U64(h.sequence);
  }

  /** A handoff that can be stored: sizes, a control, and attempts its disposition can stand beside. */
  predicate Storable(env: Env, h: Handoff) {
    && |h.recipient.identity| <= 256 && |h.recipient.device| <= 64 && env.kind(h.payload) != Other
    && |h.payload| < 0x1_0000_0000 && |h.ciphertext| < 0x1_0000_0000
    && match h.disposition
       case Prepared => h.attempts == 0
       case HandedOff => 1 <= h.attempts <= 2
       case RelayAccepted => h.attempts <= 3
       case ExhaustedUnknown => h.attempts == 3
       case Cancelled => h.attempts == 0
       case CancelledAfterHandoff => 1 <= h.attempts <= 3
  }

  /** What a well-formed outbox is: at most eight live and sixteen finished, each storable, in order and apart. */
  lemma GoodMeans(env: Env, xs: seq<Handoff>)
    ensures Good(env, xs) <==>
            && Live(xs) <= 8 && Finished(xs) <= 16 && (forall h | h in xs :: Storable(env, h))
            && Strict(xs, Canonical(env))
            && forall i, j | 0 <= i < j < |xs| ::
                 && xs[i].sequence != xs[j].sequence
                 && (xs[i].recipient != xs[j].recipient || env.commit(xs[i].payload) != env.commit(xs[j].payload))
  {
    forall h | h in xs ensures Fits(h) && WellFormed(env, h) <==> Storable(env, h) {}
  }

  /** A byte string is accepted as an outbox exactly when the outbox is well formed and encodes to it. */
  lemma AcceptedExactly(env: Env, b: bytes, xs: seq<Handoff>)
    ensures DecodeSpec(env, b) == Ok(xs) <==> Good(env, xs) && EncodeSpec(env, xs) == Ok(b)
  {
    if DecodeSpec(env, b) == Ok(xs) { AcceptedIsGood(env, b); }
    if Good(env, xs) { GoodRoundTrips(env, xs); }
  }

  // The two routines of the source.

  method EncodeState(env: Env, handoffs: seq<Handoff>) returns (r: Result<bytes>)
    ensures r == EncodeSpec(env, handoffs)
  {
    LiveAndFinished(handoffs);
    if Live(handoffs) > MAX_LIVE_HANDOFFS || Finished(handoffs) > MAX_TERMINAL_HANDOFFS { return Err(OutboxFull); }
    var entries := Sort(handoffs, Canonical(env));
    SortFitsToo(handoffs, entries);
    var state := PutEntries(DOMAIN + [|entries|], entries);
    if state.None? { return Err(Malformed); }
    Assoc(DOMAIN, [|entries|], PutMany(entries, PutHandoff, []));
    return Ok(state.value);
  }

  lemma SortFitsToo(xs: seq<Handoff>, ys: seq<Handoff>)
    requires multiset(xs) == multiset(ys)
    ensures AllFit(xs) <==> AllFit(ys)
  {
    if AllFit(ys) { forall h | h in xs ensures Fits(h) { SameElements(xs, ys, h); } }
    if AllFit(xs) { forall h | h in ys ensures Fits(h) { SameElements(ys, xs, h); } }
  }

  method PutEntries(start: bytes, entries: seq<Handoff>) returns (r: Option<bytes>)
    ensures r.Some? <==> AllFit(entries)
    ensures r.Some? ==> r.value == start + PutMany(entries, PutHandoff, [])
  {
    var state := start;
    var i := 0;
    assert entries[0..] == entries;
    while i < |entries|
      invariant i <= |entries| && forall j | 0 <= j < i :: Fits(entries[j])
      invariant AllFit(entries) ==>
                  state + PutMany(entries[i..], PutHandoff, []) == start + PutMany(entries, PutHandoff, [])
    {
      if !Fits(entries[i]) { return None; }
      AppendEntry(state, entries, i);
      state := PutEntry(state, entries[i]);
      i := i + 1;
    }
    assert entries[i..] == [] && state + [] == state;
    return Some(state);
  }

  function PutEntry(state: bytes, h: Handoff): bytes
    requires Fits(h)
  {
    state + U32(|h.recipient.identity|) + h.recipient.identity + U32(|h.recipient.device|) + h.recipient.device
      + U32(|h.payload|) + h.payload + U32(|h.ciphertext|) + h.ciphertext
      + [h.attempts] + [DispositionByte(h.disposition)] + U64(h.sequence)
  }

  lemma PutLp32Appends(state: bytes, x: bytes, tail: bytes)
    requires Fits32(x)
    ensures state + U32(|x|) + x + tail == state + PutLp32(x, tail)
  {
    Assoc(state + U32(|x|), x, tail);
    Assoc(state, U32(|x|), x + tail);
  }

  lemma PutStatusAppends(state: bytes, h: Handoff, tail: bytes)
    ensures state + [h.attempts] + [DispositionByte(h.disposition)] + U64(h.sequence) + tail
            == state + PutStatus(h, tail)
  {
    var d := [DispositionByte(h.disposition)];
    Assoc(state + [h.attempts] + d, U64(h.sequence), tail);
    Assoc(state + [h.attempts], d, PutU64(h.sequence, tail));
    Assoc(state, [h.attempts], d + PutU64(h.sequence, tail));
  }

  lemma PutEntryAppends(state: bytes, h: Handoff, tail: bytes)
    requires Fits(h)
    ensures PutEntry(state, h) + tail == state + PutHandoff(h, tail)
  {
    var s1 := state + U32(|h.recipient.identity|) + h.recipient.identity;
    var s2 := s1 + U32(|h.recipient.device|) + h.recipient.device;
    var s3 := s2 + U32(|h.payload|) + h.payload;
    var s4 := s3 + U32(|h.ciphertext|) + h.ciphertext;
    PutStatusAppends(s4, h, tail);
    var t1 := PutStatus(h, tail);
    PutLp32Appends(s3, h.ciphertext, t1);
    var t2 := PutLp32(h.ciphertext, t1);
    PutLp32Appends(s2, h.payload, t2);
    var t3 := PutLp32(h.payload, t2);
    PutLp32Appends(s1, h.recipient.device, t3);
    PutLp32Appends(state, h.recipient.identity, PutLp32(h.recipient.device, t3));
  }

  lemma AppendEntry(state: bytes, entries: seq<Handoff>, i: nat)
    requires i < |entries| && Fits(entries[i])
    ensures AllFit(entries) ==>
              PutEntry(state, entries[i]) + PutMany(entries[i + 1..], PutHandoff, [])
                == state + PutMany(entries[i..], PutHandoff, [])
  {
    if AllFit(entries) {
      assert entries[i..][1..] == entries[i + 1..];
      PutEntryAppends(state, entries[i], PutMany(entries[i + 1..], PutHandoff, []));
    }
  }

  method TakeEntries(env: Env, body: bytes, count: nat) returns (r: Parse<seq<Handoff>, ()>)
    ensures var p := TakeMany(body, count, Taker(env)); r == if p.Got? && Distinct(env, p.value) then p else Stop(())
  {
    var handoffs: seq<Handoff>, cursor := [], body;
    var left := count;
    ghost var whole := TakeMany(body, count, Taker(env));
    OntoNothing(whole);
    while left > 0
      invariant Distinct(env, handoffs)
      invariant whole == Onto(handoffs, TakeMany(cursor, left, Taker(env)))
    {
      var one := TakeHandoff(env, cursor);
      if one.Stop? { return Stop(()); }
      OneMore(env, handoffs, cursor, left);
      if Known(env, handoffs, one.value) {
        ClashStays(env, handoffs, one.value, TakeMany(one.rest, left - 1, Taker(env)));
        return Stop(());
      }
      DistinctGrows(env, handoffs, one.value);
      handoffs, cursor, left := handoffs + [one.value], one.rest, left - 1;
    }
    assert handoffs + [] == handoffs;
    return Got(handoffs, cursor);
  }

  predicate Known(env: Env, xs: seq<Handoff>, h: Handoff) {
    exists k | 0 <= k < |xs| :: Clash(env, xs[k], h)
  }

  lemma DistinctGrows(env: Env, xs: seq<Handoff>, h: Handoff)
    requires Distinct(env, xs) && !Known(env, xs, h)
    ensures Distinct(env, xs + [h])
  {
  }

  lemma OntoNothing(p: Parse<seq<Handoff>, ()>)
    ensures Onto([], p) == p
  {
    if p.Got? { assert [] + p.value == p.value; }
  }

  method DecodeState(env: Env, b: bytes) returns (r: Result<seq<Handoff>>)
    ensures r == DecodeSpec(env, b)
  {
    if !(DOMAIN <= b) || |b| == |DOMAIN| { return Err(Malformed); }
    var count := b[|DOMAIN|];
    if count > MAX_LIVE_HANDOFFS + MAX_TERMINAL_HANDOFFS { return Err(OutboxFull); }
    var entries := TakeEntries(env, b[|DOMAIN| + 1..], count);
    if entries.Stop? || entries.rest != [] { return Err(Malformed); }
    var canonical := EncodeState(env, entries.value);
    if canonical.Err? { return Err(canonical.error); }
    if canonical.value != b { return Err(NonCanonical); }
    return Ok(entries.value);
  }

  ghost function Onto(xs: seq<Handoff>, p: Parse<seq<Handoff>, ()>): Parse<seq<Handoff>, ()> {
    if p.Stop? then p else Got(xs + p.value, p.rest)
  }

  lemma OneMore(env: Env, xs: seq<Handoff>, b: bytes, n: nat)
    requires n > 0 && TakeHandoff(env, b).Got?
    ensures var one := TakeHandoff(env, b);
            Onto(xs, TakeMany(b, n, Taker(env))) == Onto(xs + [one.value], TakeMany(one.rest, n - 1, Taker(env)))
  {
    var one := TakeHandoff(env, b);
    var p := TakeMany(one.rest, n - 1, Taker(env));
    if p.Got? { assert xs + ([one.value] + p.value) == (xs + [one.value]) + p.value; }
  }

  lemma ClashStays(env: Env, xs: seq<Handoff>, h: Handoff, p: Parse<seq<Handoff>, ()>)
    requires Known(env, xs, h)
    ensures var all := Onto(xs + [h], p); all.Got? ==> !Distinct(env, all.value)
  {
    var k :| 0 <= k < |xs| && Clash(env, xs[k], h);
    if p.Got? {
      var all := xs + [h] + p.value;
      assert all[k] == xs[k] && all[|xs|] == h;
      assert Clash(env, all[k], all[|xs|]);
    }
  }

  // Reachable outboxes.

  /** The recipient is within its limits and the bytes within a four-byte length. */
  predicate Sized(h: Handoff) {
    |h.recipient.identity| <= MAX_IDENTITY_LEN && |h.recipient.device| <= MAX_DEVICE_LEN && Fits32(h.payload)
      && Fits32(h.ciphertext)
  }

  ghost predicate SizedStep(step: Step) {
    step.Record? ==> Sized(Handoff(step.recipient, step.payload, step.ciphertext, 0, Prepared, 0))
  }

  ghost predicate AllSized(ledger: seq<Entry>) { forall k | 0 <= k < |ledger| :: Sized(ledger[k].first) }

  lemma {:induction false} RunIsSized(env: Env, steps: seq<Step>)
    requires forall step | step in steps :: SizedStep(step)
    ensures AllSized(Run(env, steps).ledger)
    decreases |steps|
  {
    if steps != [] {
      RunIsSized(env, steps[..|steps| - 1]);
      StepIsSized(env, Run(env, steps[..|steps| - 1]), steps[|steps| - 1]);
    }
  }

  lemma StepIsSized(env: Env, w: World, step: Step)
    requires AllSized(w.ledger) && SizedStep(step)
    ensures AllSized(Apply(env, w, step).ledger)
  {
  }

  lemma NoClash(env: Env, w: World, i: nat, j: nat)
    requires Inv(env, w) && i < j < |w.handoffs|
    ensures !Clash(env, w.handoffs[i], w.handoffs[j])
  {
    var a, b := w.handoffs[i], w.handoffs[j];
    if a.sequence == b.sequence { SequencesDiffer(env, w.handoffs, w.ledger, i, j); }
    KeyTotal(KeyOf(env, a), KeyOf(env, b));
    assert !Canonical(env)(b, a);
  }

  lemma InvIsGood(env: Env, w: World)
    requires Inv(env, w) && AllSized(w.ledger)
    ensures Good(env, w.handoffs)
  {
    forall h | h in w.handoffs ensures Ok32(env, h) {
      var i :| 0 <= i < |w.handoffs| && w.handoffs[i] == h;
      assert EntryOk(env, w.ledger[h.sequence], h.sequence) && Sized(w.ledger[h.sequence].first);
    }
    forall i, j | 0 <= i < j < |w.handoffs| ensures !Clash(env, w.handoffs[i], w.handoffs[j]) { NoClash(env, w, i, j); }
  }

  /** Every outbox a run reaches encodes, and decodes to itself. */
  lemma ReachableRoundTrips(env: Env, steps: seq<Step>)
    requires |Run(env, steps).ledger| <= U64_MAX + 1 && forall step | step in steps :: SizedStep(step)
    ensures var xs := Run(env, steps).handoffs;
            && Good(env, xs) && EncodeSpec(env, xs).Ok? && DecodeSpec(env, EncodeSpec(env, xs).value) == Ok(xs)
  {
    RunKeeps(env, steps);
    RunIsSized(env, steps);
    InvIsGood(env, Run(env, steps));
    GoodRoundTrips(env, Run(env, steps).handoffs);
  }
}
