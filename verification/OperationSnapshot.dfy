/**
  The combined durable value and its bytes: `TCOP`, a version, a generation, two
  opaque values, four lists of opaque records and a delivery cursor.
 */
module OperationSnapshot {
  import opened Bytes

  const TAG: bytes := [0x54, 0x43, 0x4F, 0x50] // TCOP
  const VERSION: u8 := 2

  datatype Snapshot = Snapshot(
    version: u8,
    generation: u64,
    providerState: bytes,
    applicationState: bytes,
    outbox: seq<bytes>,
    inbox: seq<bytes>,
    dedup: seq<bytes>,
    groupControls: seq<bytes>,
    deliveryCursor: u64)

  predicate AllFit(xs: seq<bytes>) {
    |xs| < 0x1_0000_0000 && forall x | x in xs :: Fits32(x)
  }

  /** No value and no list is longer than a four-byte length can say. */
  predicate Encodable(s: Snapshot) {
    && Fits32(s.providerState) && Fits32(s.applicationState)
    && AllFit(s.outbox) && AllFit(s.inbox) && AllFit(s.dedup) && AllFit(s.groupControls)
  }

  function PutEntries(xs: seq<bytes>, tail: bytes): bytes
    requires AllFit(xs)
  {
    PutU32(|xs|, PutMany(xs, PutLp32, tail))
  }

  function TakeOne(b: bytes): Parse<bytes, ()> { TakeLp32(b, ()) }

  function TakeEntries(b: bytes): Parse<seq<bytes>, ()> {
    var (n, rest) :- TakeU32(b, ());
    TakeMany(rest, n, TakeOne)
  }

  /** The layout after the version byte; version one has no group controls. */
  function Body(s: Snapshot, controls: bool): bytes
    requires Encodable(s)
  {
    PutU64(s.generation, PutLp32(s.providerState, PutLp32(s.applicationState,
      PutLists(s, controls, PutU64(s.deliveryCursor, [])))))
  }

  function PutLists(s: Snapshot, controls: bool, tail: bytes): bytes
    requires Encodable(s)
  {
    PutEntries(s.outbox, PutEntries(s.inbox, PutEntries(s.dedup,
      if controls then PutEntries(s.groupControls, tail) else tail)))
  }

  function Layout(s: Snapshot): bytes
    requires Encodable(s)
  {
    TAG + ([s.version] + Body(s, true))
  }

  /** What a version-one writer wrote. */
  function LegacyLayout(s: Snapshot): bytes
    requires Encodable(s)
  {
    TAG + ([1] + Body(s, false))
  }

  function DecodeSpec(b: bytes): Option<Snapshot> {
    var p := ParseSnapshot(b);
    if p.Got? && p.rest == [] then Some(p.value) else None
  }

  function ParseSnapshot(b: bytes): Parse<Snapshot, ()> {
    var (tag, rest) :- Take(b, 4, ());
    if tag != TAG then Stop(()) else
    var (version, rest) :- TakeU8(rest, ());
    if version != 1 && version != VERSION then Stop(()) else
    ParseBody(rest, version == VERSION)
  }

  /** The three lists, and the group controls where the version has them. */
  function ParseLists(b: bytes, controls: bool): (r: Parse<seq<seq<bytes>>, ()>)
    ensures r.Got? ==> |r.value| == 4
  {
    var (outbox, rest) :- TakeEntries(b);
    var (inbox, rest) :- TakeEntries(rest);
    var (dedup, rest) :- TakeEntries(rest);
    var (groupControls, rest) :- if controls then TakeEntries(rest) else Got([], rest);
    Got([outbox, inbox, dedup, groupControls], rest)
  }

  function ParseBody(b: bytes, controls: bool): Parse<Snapshot, ()> {
    var (generation, rest) :- TakeU64(b, ());
    var (providerState, rest) :- TakeLp32(rest, ());
    var (applicationState, rest) :- TakeLp32(rest, ());
    var (lists, rest) :- ParseLists(rest, controls);
    var (cursor, rest) :- TakeU64(rest, ());
    Got(Snapshot(VERSION, generation, providerState, applicationState, lists[0], lists[1], lists[2], lists[3], cursor),
      rest)
  }

  /** The first thirteen bytes of a snapshot file, read without the rest. */
  function HeaderGeneration(b: bytes): Option<u64> {
    if |b| < 13 || b[..4] != TAG || (b[4] != 1 && b[4] != VERSION) then None
    else Some(N64(b[5..13]))
  }

  // The two routines of the source.

  method PutBytes(out: bytes, x: bytes) returns (r: Option<bytes>)
    ensures r.Some? <==> Fits32(x)
    ensures r.Some? ==> forall tail :: r.value + tail == out + PutLp32(x, tail)
  {
    if |x| >= 0x1_0000_0000 { return None; }
    r := Some(out + U32(|x|) + x);
    forall tail: bytes ensures out + U32(|x|) + x + tail == out + PutLp32(x, tail) {}
  }

  method PutAll(out: bytes, entries: seq<bytes>) returns (r: Option<bytes>)
    ensures r.Some? <==> AllFit(entries)
    ensures r.Some? ==> forall tail :: r.value + tail == out + PutEntries(entries, tail)
  {
    if |entries| >= 0x1_0000_0000 { return None; }
    var acc := out + U32(|entries|);
    var i := 0;
    while i < |entries|
      invariant 0 <= i <= |entries|
      invariant forall x | x in entries[..i] :: Fits32(x)
      invariant AllFit(entries) ==> forall tail ::
                acc + PutMany(entries[i..], PutLp32, tail) == out + PutEntries(entries, tail)
    {
      var one := PutBytes(acc, entries[i]);
      if one.None? { return None; }
      assert entries[..i + 1] == entries[..i] + [entries[i]];
      assert entries[i..][1..] == entries[i + 1..];
      acc := one.value;
      i := i + 1;
    }
    assert entries[..i] == entries && entries[i..] == [];
    r := Some(acc);
  }

  method Encode(s: Snapshot) returns (r: Option<bytes>)
    ensures r == if Encodable(s) then Some(Layout(s)) else None
  {
    var out := TAG + [s.version] + U64(s.generation);
    var p := PutBytes(out, s.providerState);
    if p.None? { return None; }
    var a := PutBytes(p.value, s.applicationState);
    if a.None? { return None; }
    var o := PutAll(a.value, s.outbox);
    if o.None? { return None; }
    var n := PutAll(o.value, s.inbox);
    if n.None? { return None; }
    var d := PutAll(n.value, s.dedup);
    if d.None? { return None; }
    var g := PutAll(d.value, s.groupControls);
    if g.None? { return None; }
    r := Some(g.value + U64(s.deliveryCursor));
    ghost var t0 := PutU64(s.deliveryCursor, []);
    ghost var t1 := PutEntries(s.groupControls, t0);
    ghost var t2 := PutEntries(s.dedup, t1);
    ghost var t3 := PutEntries(s.inbox, t2);
    ghost var t4 := PutLists(s, true, t0);
    ghost var t5 := PutLp32(s.applicationState, t4);
    assert t0 == U64(s.deliveryCursor);
    assert r.value == g.value + t0 == d.value + t1 == n.value + t2 == o.value + t3 == a.value + t4 == p.value + t5;
    ghost var t6 := PutLp32(s.providerState, t5);
    assert r.value == out + t6 == TAG + ([s.version] + (U64(s.generation) + t6));
  }

  method TakeAll(cursor: bytes) returns (r: Parse<seq<bytes>, ()>)
    ensures r == TakeEntries(cursor)
  {
    var count := TakeU32(cursor, ());
    if count.Stop? { return Stop(()); }
    var rest, xs := count.rest, [];
    var i := 0;
    assert forall ys: seq<bytes> {:trigger xs + ys} :: xs + ys == ys;
    while i < count.value
      invariant 0 <= i <= count.value
      invariant var todo := TakeMany(rest, count.value - i, TakeOne);
                TakeMany(count.rest, count.value, TakeOne)
                == if todo.Stop? then todo else Got(xs + todo.value, todo.rest)
    {
      var one := TakeLp32(rest, ());
      if one.Stop? { return Stop(()); }
      xs, rest := xs + [one.value], one.rest;
      i := i + 1;
      assert forall ys: seq<bytes> {:trigger xs + ys} :: xs + ys == xs[..|xs| - 1] + ([one.value] + ys);
    }
    assert xs + [] == xs;
    r := Got(xs, rest);
  }

  method TakeLists(cursor: bytes, controls: bool) returns (r: Parse<seq<seq<bytes>>, ()>)
    ensures r == ParseLists(cursor, controls)
  {
    var outbox := TakeAll(cursor);
    if outbox.Stop? { return Stop(outbox.why); }
    var inbox := TakeAll(outbox.rest);
    if inbox.Stop? { return Stop(inbox.why); }
    var dedup := TakeAll(inbox.rest);
    if dedup.Stop? { return Stop(dedup.why); }
    var groupControls := Got([], dedup.rest);
    if controls {
      groupControls := TakeAll(dedup.rest);
      if groupControls.Stop? { return Stop(groupControls.why); }
    }
    r := Got([outbox.value, inbox.value, dedup.value, groupControls.value], groupControls.rest);
  }

  method TakeBody(cursor: bytes, controls: bool) returns (r: Parse<Snapshot, ()>)
    ensures r == ParseBody(cursor, controls)
  {
    var generation := TakeU64(cursor, ());
    if generation.Stop? { return Stop(generation.why); }
    var provider := TakeLp32(generation.rest, ());
    if provider.Stop? { return Stop(provider.why); }
    var application := TakeLp32(provider.rest, ());
    if application.Stop? { return Stop(application.why); }
    var lists := TakeLists(application.rest, controls);
    if lists.Stop? { return Stop(lists.why); }
    var last := TakeU64(lists.rest, ());
    if last.Stop? { return Stop(last.why); }
    r := Got(Snapshot(VERSION, generation.value, provider.value, application.value,
                      lists.value[0], lists.value[1], lists.value[2], lists.value[3], last.value), last.rest);
  }

  method Decode(b: bytes) returns (r: Option<Snapshot>)
    ensures r == DecodeSpec(b)
  {
    if |b| < 4 || b[..4] != TAG { return None; }
    var cursor := b[4..];
    if cursor == [] { return None; }
    var version := cursor[0];
    if version != 1 && version != VERSION { return None; }
    var body := TakeBody(cursor[1..], version != 1);
    if body.Stop? || body.rest != [] { return None; }
    r := Some(body.value);
  }

  // What they are for.

  lemma EntriesReadBack(xs: seq<bytes>, tail: bytes)
    requires AllFit(xs)
    ensures TakeEntries(PutEntries(xs, tail)) == Got(xs, tail)
  {
    TakeU32App(|xs|, PutMany(xs, PutLp32, tail), ());
    forall x: bytes, t: bytes | Fits32(x) ensures TakeOne(PutLp32(x, t)) == Got(x, t) { TakeLp32App(x, t, ()); }
    TakeManyReadsBack(xs, PutLp32, TakeOne, Fits32, tail);
  }

  lemma EntriesOneSpelling(b: bytes)
    ensures var r := TakeEntries(b); r.Got? ==> AllFit(r.value) && b == PutEntries(r.value, r.rest)
  {
    TakeU32Canonical(b, ());
    var n := TakeU32(b, ());
    if n.Got? {
      forall c: bytes | TakeOne(c).Got?
        ensures Fits32(TakeOne(c).value) && c == PutLp32(TakeOne(c).value, TakeOne(c).rest)
      {
        TakeLp32Canonical(c, ());
      }
      TakeManyOneSpelling(n.rest, n.value, PutLp32, TakeOne, Fits32);
    }
  }

  lemma ListsReadBack(s: Snapshot, controls: bool, tail: bytes)
    requires Encodable(s)
    ensures ParseLists(PutLists(s, controls, tail), controls)
            == Got([s.outbox, s.inbox, s.dedup, if controls then s.groupControls else []], tail)
  {
    var t1 := if controls then PutEntries(s.groupControls, tail) else tail;
    var t2 := PutEntries(s.dedup, t1);
    EntriesReadBack(s.outbox, PutEntries(s.inbox, t2));
    EntriesReadBack(s.inbox, t2);
    EntriesReadBack(s.dedup, t1);
    if controls { EntriesReadBack(s.groupControls, tail); }
  }

  lemma BodyReadsBack(s: Snapshot, controls: bool)
    requires Encodable(s)
    ensures ParseBody(Body(s, controls), controls)
            == Got(s.(version := VERSION, groupControls := if controls then s.groupControls else []), [])
  {
    var t0 := PutU64(s.deliveryCursor, []);
    var t1 := PutLists(s, controls, t0);
    var t2 := PutLp32(s.applicationState, t1);
    TakeU64App(s.generation, PutLp32(s.providerState, t2), ());
    TakeLp32App(s.providerState, t2, ());
    TakeLp32App(s.applicationState, t1, ());
    ListsReadBack(s, controls, t0);
    TakeU64App(s.deliveryCursor, [], ());
  }

  lemma HeadReadsBack(version: u8, body: bytes)
    requires version == 1 || version == VERSION
    ensures ParseSnapshot(TAG + ([version] + body)) == ParseBody(body, version == VERSION)
  {
    TakeApp(TAG, [version] + body, ());
    TakeU8App(version, body, ());
  }

  /** What was published recovers as it was. */
  lemma RoundTrip(s: Snapshot)
    requires Encodable(s) && s.version == VERSION
    ensures DecodeSpec(Layout(s)) == Some(s)
  {
    HeadReadsBack(VERSION, Body(s, true));
    BodyReadsBack(s, true);
  }

  /** A snapshot an older writer left recovers with no group controls, at the current version. */
  lemma LegacyRoundTrip(s: Snapshot)
    requires Encodable(s)
    ensures DecodeSpec(LegacyLayout(s)) == Some(s.(version := VERSION, groupControls := []))
  {
    HeadReadsBack(1, Body(s, false));
    BodyReadsBack(s, false);
  }

  lemma ListsOneSpelling(b: bytes, controls: bool, s: Snapshot)
    requires ParseLists(b, controls).Got?
    requires var v := ParseLists(b, controls).value;
             s.outbox == v[0] && s.inbox == v[1] && s.dedup == v[2] && s.groupControls == v[3]
    ensures AllFit(s.outbox) && AllFit(s.inbox) && AllFit(s.dedup) && AllFit(s.groupControls)
    ensures !controls ==> s.groupControls == []
    ensures Encodable(s) ==> b == PutLists(s, controls, ParseLists(b, controls).rest)
  {
    EntriesOneSpelling(b);
    var o := TakeEntries(b);
    EntriesOneSpelling(o.rest);
    var n := TakeEntries(o.rest);
    EntriesOneSpelling(n.rest);
    EntriesOneSpelling(TakeEntries(n.rest).rest);
  }

  lemma BodyOneSpelling(b: bytes, controls: bool)
    ensures var r := ParseBody(b, controls);
            r.Got? ==>
              && Encodable(r.value) && r.value.version == VERSION && (!controls ==> r.value.groupControls == [])
              && (r.rest == [] ==> b == Body(r.value, controls))
  {
    var r := ParseBody(b, controls);
    if r.Got? {
      TakeU64Canonical(b, ());
      var g := TakeU64(b, ());
      TakeLp32Canonical(g.rest, ());
      var p := TakeLp32(g.rest, ());
      TakeLp32Canonical(p.rest, ());
      var a := TakeLp32(p.rest, ());
      ListsOneSpelling(a.rest, controls, r.value);
      TakeU64Canonical(ParseLists(a.rest, controls).rest, ());
    }
  }

  /**
    Accepted bytes are exactly the two layouts: the current one of an encodable
    snapshot, or an older writer's.
   */
  lemma AcceptedExactly(b: bytes, s: Snapshot)
    ensures DecodeSpec(b) == Some(s) <==>
            s.version == 2 && Encodable(s) && (b == Layout(s) || (s.groupControls == [] && b == LegacyLayout(s)))
  {
    if DecodeSpec(b) == Some(s) {
      TakeCanonical(b, 4, ());
      TakeU8Canonical(b[4..], ());
      var version := b[4];
      assert b == TAG + ([version] + b[5..]);
      HeadReadsBack(version, b[5..]);
      BodyOneSpelling(b[5..], version == VERSION);
    }
    if s.version == VERSION && Encodable(s) {
      if b == Layout(s) { RoundTrip(s); }
      if s.groupControls == [] && b == LegacyLayout(s) { LegacyRoundTrip(s); }
    }
  }

  /** A value behind its length, and a list behind its count. */
  function Sized(x: bytes): bytes
    requires Fits32(x)
  {
    U32(|x|) + x
  }

  function AllSized(xs: seq<bytes>): bytes
    requires forall x | x in xs :: Fits32(x)
  {
    if xs == [] then [] else Sized(xs[0]) + AllSized(xs[1..])
  }

  function Counted(xs: seq<bytes>): bytes
    requires AllFit(xs)
  {
    U32(|xs|) + AllSized(xs)
  }

  lemma {:induction false} ManyIsSized(xs: seq<bytes>, tail: bytes)
    requires forall x | x in xs :: Fits32(x)
    ensures PutMany(xs, PutLp32, tail) == AllSized(xs) + tail
    decreases |xs|
  {
    if xs != [] {
      ManyIsSized(xs[1..], tail);
      assert PutLp32(xs[0], AllSized(xs[1..]) + tail) == Sized(xs[0]) + AllSized(xs[1..]) + tail;
    }
  }

  lemma EntriesAreCounted(xs: seq<bytes>, tail: bytes)
    requires AllFit(xs)
    ensures PutEntries(xs, tail) == Counted(xs) + tail
  {
    ManyIsSized(xs, tail);
    assert U32(|xs|) + (AllSized(xs) + tail) == U32(|xs|) + AllSized(xs) + tail;
  }

  lemma ListBytes(s: Snapshot, tail: bytes)
    requires Encodable(s)
    ensures PutLists(s, true, tail)
            == Counted(s.outbox) + (Counted(s.inbox) + (Counted(s.dedup) + (Counted(s.groupControls) + tail)))
  {
    EntriesAreCounted(s.groupControls, tail);
    EntriesAreCounted(s.dedup, Counted(s.groupControls) + tail);
    EntriesAreCounted(s.inbox, Counted(s.dedup) + (Counted(s.groupControls) + tail));
    EntriesAreCounted(s.outbox, Counted(s.inbox) + (Counted(s.dedup) + (Counted(s.groupControls) + tail)));
  }

  /** The file, field by field: tag, version, generation, provider and application state, the four lists, the cursor. */
  lemma FileBytes(s: Snapshot)
    requires Encodable(s)
    ensures Layout(s) ==
            [0x54, 0x43, 0x4F, 0x50] + ([s.version] + (U64(s.generation)
            + (Sized(s.providerState) + (Sized(s.applicationState)
            + (Counted(s.outbox) + (Counted(s.inbox) + (Counted(s.dedup) + (Counted(s.groupControls)
            + U64(s.deliveryCursor)))))))))
  {
    ListBytes(s, U64(s.deliveryCursor));
    assert PutU64(s.deliveryCursor, []) == U64(s.deliveryCursor);
    var lists := PutLists(s, true, U64(s.deliveryCursor));
    assert PutLp32(s.applicationState, lists) == Sized(s.applicationState) + lists;
    var states := Sized(s.applicationState) + lists;
    assert PutLp32(s.providerState, states) == Sized(s.providerState) + states;
  }

  /** The header gives a generation exactly when the tag, a known version and that generation are there. */
  lemma HeaderExactly(b: bytes, g: u64)
    ensures HeaderGeneration(b) == Some(g) <==>
            |b| >= 13 && b[..4] == [0x54, 0x43, 0x4F, 0x50] && (b[4] == 1 || b[4] == 2) && b[5..13] == U64(g)
  {
    if |b| >= 13 {
      U64Canonical(b[5..13]);
      TakeU64App(g, [], ());
      assert U64(g) + [] == U64(g);
    }
  }

  /** The generation check reads from the header what a full recovery would. */
  lemma HeaderAgrees(b: bytes)
    requires DecodeSpec(b).Some?
    ensures HeaderGeneration(b) == Some(DecodeSpec(b).value.generation)
  {
    var g := TakeU64(b[5..], ());
    assert b[4..][1..] == b[5..];
    assert g.Got?;
    assert b[5..][..8] == b[5..13];
  }

  /** A torn copy of an accepted file, cut anywhere, is not a snapshot. */
  lemma TornIsRefused(b: bytes, cut: nat)
    requires DecodeSpec(b).Some? && cut < |b|
    ensures DecodeSpec(b[..cut]) == None
  {
    assert b[..cut] + b[cut..] == b;
    ParseExtends(b[..cut], b[cut..]);
  }

  lemma EntriesExtend(b: bytes, more: bytes)
    ensures Extends((), TakeEntries(b), TakeEntries(b + more), more)
  {
    TakeU32Extends(b, more, ());
    var n := TakeU32(b, ());
    if n.Got? {
      forall c: bytes, m: bytes ensures Extends((), TakeOne(c), TakeOne(c + m), m) { TakeLp32Extends(c, m, ()); }
      TakeManyExtends(n.rest, more, n.value, TakeOne, ());
    }
  }

  lemma ParseExtends(b: bytes, more: bytes)
    ensures Extends((), ParseSnapshot(b), ParseSnapshot(b + more), more)
  {
    TakeExtends(b, more, 4, ());
    if |b| >= 5 {
      TakeU8Extends(b[4..], more, ());
      BodyExtends(b[4..][1..], more, b[4] == VERSION);
    }
  }

  lemma ListsExtend(b: bytes, more: bytes, controls: bool)
    ensures Extends((), ParseLists(b, controls), ParseLists(b + more, controls), more)
  {
    if ParseLists(b, controls).Got? {
      EntriesExtend(b, more);
      var o := TakeEntries(b);
      EntriesExtend(o.rest, more);
      var n := TakeEntries(o.rest);
      EntriesExtend(n.rest, more);
      EntriesExtend(TakeEntries(n.rest).rest, more);
    }
  }

  lemma BodyExtends(b: bytes, more: bytes, controls: bool)
    ensures Extends((), ParseBody(b, controls), ParseBody(b + more, controls), more)
  {
    if ParseBody(b, controls).Got? {
      TakeU64Extends(b, more, ());
      var g := TakeU64(b, ());
      TakeLp32Extends(g.rest, more, ());
      var p := TakeLp32(g.rest, ());
      TakeLp32Extends(p.rest, more, ());
      var a := TakeLp32(p.rest, ());
      ListsExtend(a.rest, more, controls);
      TakeU64Extends(ParseLists(a.rest, controls).rest, more, ());
    }
  }

  /**
    A recovered version-one value is republished as version two: under its old tag
    the layout with group controls could never be recovered.
   */
  lemma OldTagIsUnreadable(s: Snapshot)
    requires Encodable(s) && s.version == 1
    ensures DecodeSpec(Layout(s)) == None
  {
    HeadReadsBack(1, Body(s, true));
    ControlsLeftOver(s);
  }

  /** Read without group controls, the lists before them read back and the controls are left over. */
  lemma ControlsLeftOver(s: Snapshot)
    requires Encodable(s)
    ensures var r := ParseBody(Body(s, true), false); r.Got? ==> r.rest != []
  {
    var end := PutU64(s.deliveryCursor, []);
    var left := PutEntries(s.groupControls, end);
    var lists := PutLists(s, false, left);
    assert lists == PutLists(s, true, end);
    PutManyLength(s.groupControls, end);
    ThreeFields(s, lists);
    ListsReadBack(s, false, left);
  }

  lemma ThreeFields(s: Snapshot, lists: bytes)
    requires Encodable(s)
    ensures var b := PutU64(s.generation, PutLp32(s.providerState, PutLp32(s.applicationState, lists)));
            var l := ParseLists(lists, false);
            && (l.Stop? ==> ParseBody(b, false).Stop?)
            && (l.Got? && ParseBody(b, false).Got? ==> ParseBody(b, false).rest == TakeU64(l.rest, ()).rest)
  {
    var t2 := PutLp32(s.applicationState, lists);
    TakeU64App(s.generation, PutLp32(s.providerState, t2), ());
    TakeLp32App(s.providerState, t2, ());
    TakeLp32App(s.applicationState, lists, ());
  }

  lemma PutManyLength(xs: seq<bytes>, tail: bytes)
    requires forall x | x in xs :: Fits32(x)
    ensures |PutMany(xs, PutLp32, tail)| >= |tail|
  {
  }
}
