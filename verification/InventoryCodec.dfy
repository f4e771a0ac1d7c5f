/**
  The bytes of a stored inventory and of the three requests, as the database rows and
  the account snapshot hold them.
 */
module InventoryCodec {
  import opened Bytes
  import opened Inventory

  function PutPredecessor(predecessor: Option<key32>, tail: bytes): bytes {
    match predecessor
    case None => [0] + tail
    case Some(p) => [1] + (p + tail)
  }

  function PutBinding(b: Binding, tail: bytes): bytes {
    PutU32(b.deviceId, b.key + PutU64(b.capabilities, PutPredecessor(b.predecessor, tail)))
  }

  function TakeKey(b: bytes): Parse<key32, ()> {
    if |b| < 32 then Stop(()) else Got(b[..32], b[32..])
  }

  function TakePredecessor(b: bytes): Parse<Option<key32>, ()> {
    var (present, rest) :- TakeU8(b, ());
    if present == 0 then Got(None, rest)
    else if present == 1 then
      var (p, rest) :- TakeKey(rest);
      Got(Some(p), rest)
    else Stop(())
  }

  function TakeBinding(b: bytes): Parse<Binding, ()> {
    var (deviceId, rest) :- TakeU32(b, ());
    var (key, rest) :- TakeKey(rest);
    var (capabilities, rest) :- TakeU64(rest, ());
    var (predecessor, rest) :- TakePredecessor(rest);
    Got(Binding(deviceId, key, capabilities, predecessor), rest)
  }

  function PutRevocation(r: Revocation, tail: bytes): bytes {
    PutBinding(r.binding, PutU64(r.terminal, tail))
  }

  function TakeRevocation(b: bytes): Parse<Revocation, ()> {
    var (binding, rest) :- TakeBinding(b);
    var (terminal, rest) :- TakeU64(rest, ());
    Got(Revocation(binding, terminal), rest)
  }

  /** Within the bounds a decoder accepts. */
  predicate Bounded(inv: DeviceInventory) {
    |inv.active| <= MAX_ACTIVE_BINDINGS && |inv.revoked| <= MAX_RECENT_REVOCATIONS
  }

  function PutInventory(inv: DeviceInventory, tail: bytes): bytes
    requires Bounded(inv)
  {
    PutU64(inv.generation, PutU32(|inv.active|, PutMany(inv.active, PutBinding,
      PutU64(inv.floor, PutU32(|inv.revoked|, PutMany(inv.revoked, PutRevocation, tail))))))
  }

  function TakeBindings(b: bytes): Parse<seq<Binding>, ()> {
    var (n, rest) :- TakeU32(b, ());
    if n > MAX_ACTIVE_BINDINGS then Stop(()) else TakeMany(rest, n, TakeBinding)
  }

  function TakeRevocations(b: bytes): Parse<seq<Revocation>, ()> {
    var (n, rest) :- TakeU32(b, ());
    if n > MAX_RECENT_REVOCATIONS then Stop(()) else TakeMany(rest, n, TakeRevocation)
  }

  function TakeInventory(b: bytes): Parse<DeviceInventory, ()> {
    var (generation, rest) :- TakeU64(b, ());
    var (active, rest) :- TakeBindings(rest);
    var (floor, rest) :- TakeU64(rest, ());
    var (revoked, rest) :- TakeRevocations(rest);
    Got(DeviceInventory(generation, active, floor, revoked), rest)
  }

  function DecodeInventory(b: bytes): Option<DeviceInventory> {
    var p := TakeInventory(b);
    if p.Got? && p.rest == [] then Some(p.value) else None
  }

  // The routines of the source, which fill a buffer and walk a slice.

  method AppendBindings(start: bytes, xs: seq<Binding>) returns (out: bytes)
    ensures forall tail :: out + tail == start + PutMany(xs, PutBinding, tail)
  {
    out := start;
    assert xs[0..] == xs;
    for i := 0 to |xs|
      invariant forall tail :: out + PutMany(xs[i..], PutBinding, tail) == start + PutMany(xs, PutBinding, tail)
    {
      forall tail ensures out + PutBinding(xs[i], []) + PutMany(xs[i + 1..], PutBinding, tail)
        == start + PutMany(xs, PutBinding, tail) {
        BindingAppends(xs[i], PutMany(xs[i + 1..], PutBinding, tail));
        AppendStep(out, xs, i, PutBinding, tail);
      }
      out := out + PutBinding(xs[i], []);
    }
    assert xs[|xs|..] == [];
  }

  method AppendRevocations(start: bytes, xs: seq<Revocation>) returns (out: bytes)
    ensures forall tail :: out + tail == start + PutMany(xs, PutRevocation, tail)
  {
    out := start;
    assert xs[0..] == xs;
    for i := 0 to |xs|
      invariant forall tail :: out + PutMany(xs[i..], PutRevocation, tail) == start + PutMany(xs, PutRevocation, tail)
    {
      forall tail ensures out + PutRevocation(xs[i], []) + PutMany(xs[i + 1..], PutRevocation, tail)
        == start + PutMany(xs, PutRevocation, tail) {
        RevocationAppends(xs[i], PutMany(xs[i + 1..], PutRevocation, tail));
        AppendStep(out, xs, i, PutRevocation, tail);
      }
      out := out + PutRevocation(xs[i], []);
    }
    assert xs[|xs|..] == [];
  }

  method EncodeInventory(inv: DeviceInventory) returns (out: bytes)
    requires Bounded(inv)
    ensures out == PutInventory(inv, [])
  {
    var active := AppendBindings(U64(inv.generation) + U32(|inv.active|), inv.active);
    var head := U64(inv.floor) + U32(|inv.revoked|);
    out := AppendRevocations(active + head, inv.revoked);
    ghost var t1 := PutMany(inv.revoked, PutRevocation, []);
    ghost var t2 := PutMany(inv.active, PutBinding, head + t1);
    assert out == active + (head + t1) by {
      assert out + [] == out;
      Assoc(active, head, t1);
    }
    CountedAppends(inv.floor, |inv.revoked|, t1);
    CountedAppends(inv.generation, |inv.active|, t2);
  }

  lemma PredecessorAppends(predecessor: Option<key32>, tail: bytes)
    ensures PutPredecessor(predecessor, tail) == PutPredecessor(predecessor, []) + tail
  {
  }

  lemma BindingAppends(b: Binding, tail: bytes)
    ensures PutBinding(b, tail) == PutBinding(b, []) + tail
  {
    var p := PutPredecessor(b.predecessor, []);
    PredecessorAppends(b.predecessor, tail);
    Assoc(U64(b.capabilities), p, tail);
    Assoc(b.key, PutU64(b.capabilities, p), tail);
    Assoc(U32(b.deviceId), b.key + PutU64(b.capabilities, p), tail);
  }

  lemma RevocationAppends(r: Revocation, tail: bytes)
    ensures PutRevocation(r, tail) == PutRevocation(r, []) + tail
  {
    var b, t := PutBinding(r.binding, []), U64(r.terminal);
    BindingAppends(r.binding, PutU64(r.terminal, tail));
    BindingAppends(r.binding, PutU64(r.terminal, []));
    assert t + [] == t;
    Assoc(b, t, tail);
  }

  // Reading back.

  lemma PredecessorReadsBack(predecessor: Option<key32>, tail: bytes)
    ensures TakePredecessor(PutPredecessor(predecessor, tail)) == Got(predecessor, tail)
  {
    match predecessor
    case None => TakeU8App(0, tail, ());
    case Some(p) => TakeU8App(1, p + tail, ()); TakeApp(p, tail, ());
  }

  lemma BindingReadsBack(b: Binding, tail: bytes)
    ensures TakeBinding(PutBinding(b, tail)) == Got(b, tail)
  {
    var t1 := PutPredecessor(b.predecessor, tail);
    var t2 := PutU64(b.capabilities, t1);
    TakeU32App(b.deviceId, b.key + t2, ());
    TakeApp(b.key, t2, ());
    TakeU64App(b.capabilities, t1, ());
    PredecessorReadsBack(b.predecessor, tail);
  }

  lemma PredecessorOneSpelling(b: bytes)
    ensures var r := TakePredecessor(b); r.Got? ==> b == PutPredecessor(r.value, r.rest)
  {
  }

  lemma BindingOneSpelling(b: bytes)
    ensures var r := TakeBinding(b); r.Got? ==> b == PutBinding(r.value, r.rest)
  {
    var r := TakeBinding(b);
    if r.Got? {
      TakeU32Canonical(b, ());
      var d := TakeU32(b, ());
      var k := TakeKey(d.rest);
      assert d.rest == k.value + k.rest;
      TakeU64Canonical(k.rest, ());
      PredecessorOneSpelling(TakeU64(k.rest, ()).rest);
    }
  }

  lemma BindingExtends(b: bytes, more: bytes)
    ensures Extends((), TakeBinding(b), TakeBinding(b + more), more)
  {
    if TakeBinding(b).Got? {
      TakeU32Extends(b, more, ());
      var d := TakeU32(b, ());
      TakeExtends(d.rest, more, 32, ());
      var k := TakeKey(d.rest);
      TakeU64Extends(k.rest, more, ());
      var c := TakeU64(k.rest, ());
      TakeU8Extends(c.rest, more, ());
      TakeExtends(c.rest[1..], more, 32, ());
    }
  }

  lemma RevocationReadsBack(r: Revocation, tail: bytes)
    ensures TakeRevocation(PutRevocation(r, tail)) == Got(r, tail)
  {
    BindingReadsBack(r.binding, PutU64(r.terminal, tail));
    TakeU64App(r.terminal, tail, ());
  }

  lemma RevocationOneSpelling(b: bytes)
    ensures var r := TakeRevocation(b); r.Got? ==> b == PutRevocation(r.value, r.rest)
  {
    BindingOneSpelling(b);
    var p := TakeBinding(b);
    if p.Got? { TakeU64Canonical(p.rest, ()); }
  }

  lemma RevocationExtends(b: bytes, more: bytes)
    ensures Extends((), TakeRevocation(b), TakeRevocation(b + more), more)
  {
    BindingExtends(b, more);
    var p := TakeBinding(b);
    if p.Got? { TakeU64Extends(p.rest, more, ()); }
  }

  predicate Any<T>(x: T) { true }

  lemma InventoryReadsBack(inv: DeviceInventory, tail: bytes)
    requires Bounded(inv)
    ensures TakeInventory(PutInventory(inv, tail)) == Got(inv, tail)
  {
    var t1 := PutMany(inv.revoked, PutRevocation, tail);
    var t2 := PutU32(|inv.revoked|, t1);
    var t3 := PutU64(inv.floor, t2);
    var t4 := PutMany(inv.active, PutBinding, t3);
    forall b: Binding, t: bytes ensures TakeBinding(PutBinding(b, t)) == Got(b, t) { BindingReadsBack(b, t); }
    forall r: Revocation, t: bytes ensures TakeRevocation(PutRevocation(r, t)) == Got(r, t)
    {
      RevocationReadsBack(r, t);
    }
    TakeU64App(inv.generation, PutU32(|inv.active|, t4), ());
    TakeU32App(|inv.active|, t4, ());
    TakeManyReadsBack(inv.active, PutBinding, TakeBinding, Any, t3);
    TakeU64App(inv.floor, t2, ());
    TakeU32App(|inv.revoked|, t1, ());
    TakeManyReadsBack(inv.revoked, PutRevocation, TakeRevocation, Any, tail);
  }

  lemma BindingsOneSpelling(b: bytes)
    ensures var r := TakeBindings(b);
            r.Got? ==> |r.value| <= MAX_ACTIVE_BINDINGS && b == PutU32(|r.value|, PutMany(r.value, PutBinding, r.rest))
  {
    TakeU32Canonical(b, ());
    var n := TakeU32(b, ());
    if n.Got? && n.value <= MAX_ACTIVE_BINDINGS {
      forall c: bytes | TakeBinding(c).Got? ensures c == PutBinding(TakeBinding(c).value, TakeBinding(c).rest)
      {
        BindingOneSpelling(c);
      }
      TakeManyOneSpelling(n.rest, n.value, PutBinding, TakeBinding, Any);
    }
  }

  lemma RevocationsOneSpelling(b: bytes)
    ensures var r := TakeRevocations(b);
            r.Got? ==>
              |r.value| <= MAX_RECENT_REVOCATIONS
              && b == PutU32(|r.value|, PutMany(r.value, PutRevocation, r.rest))
  {
    TakeU32Canonical(b, ());
    var n := TakeU32(b, ());
    if n.Got? && n.value <= MAX_RECENT_REVOCATIONS {
      forall c: bytes | TakeRevocation(c).Got?
        ensures c == PutRevocation(TakeRevocation(c).value, TakeRevocation(c).rest)
      {
        RevocationOneSpelling(c);
      }
      TakeManyOneSpelling(n.rest, n.value, PutRevocation, TakeRevocation, Any);
    }
  }

  lemma InventoryOneSpelling(b: bytes)
    ensures var r := TakeInventory(b); r.Got? ==> Bounded(r.value) && b == PutInventory(r.value, r.rest)
  {
    var r := TakeInventory(b);
    if r.Got? {
      TakeU64Canonical(b, ());
      var g := TakeU64(b, ());
      BindingsOneSpelling(g.rest);
      var a := TakeBindings(g.rest);
      TakeU64Canonical(a.rest, ());
      RevocationsOneSpelling(TakeU64(a.rest, ()).rest);
    }
  }

  lemma BindingsExtend(b: bytes, more: bytes)
    ensures Extends((), TakeBindings(b), TakeBindings(b + more), more)
  {
    TakeU32Extends(b, more, ());
    var n := TakeU32(b, ());
    if n.Got? {
      forall c: bytes, m: bytes ensures Extends((), TakeBinding(c), TakeBinding(c + m), m) { BindingExtends(c, m); }
      TakeManyExtends(n.rest, more, n.value, TakeBinding, ());
    }
  }

  lemma RevocationsExtend(b: bytes, more: bytes)
    ensures Extends((), TakeRevocations(b), TakeRevocations(b + more), more)
  {
    TakeU32Extends(b, more, ());
    var n := TakeU32(b, ());
    if n.Got? {
      forall c: bytes, m: bytes ensures Extends((), TakeRevocation(c), TakeRevocation(c + m), m)
      {
        RevocationExtends(c, m);
      }
      TakeManyExtends(n.rest, more, n.value, TakeRevocation, ());
    }
  }

  lemma InventoryExtends(b: bytes, more: bytes)
    ensures Extends((), TakeInventory(b), TakeInventory(b + more), more)
  {
    if TakeInventory(b).Got? {
      TakeU64Extends(b, more, ());
      var g := TakeU64(b, ());
      BindingsExtend(g.rest, more);
      var a := TakeBindings(g.rest);
      TakeU64Extends(a.rest, more, ());
      RevocationsExtend(TakeU64(a.rest, ()).rest, more);
    }
  }

  /** A stored row decodes to exactly the inventory it encodes, and nothing else decodes. */
  lemma StoredStateExactly(b: bytes, inv: DeviceInventory)
    ensures DecodeInventory(b) == Some(inv) <==> Bounded(inv) && b == PutInventory(inv, [])
  {
    InventoryOneSpelling(b);
    if Bounded(inv) { InventoryReadsBack(inv, []); }
  }

  // Requests: compared byte for byte to tell a retry from a reused key.

  const LIFECYCLE: bytes := [0x54, 0x43, 0x49, 0x4C, 0x01] // TCIL, version 1

  function EncodeRequest(r: Request): bytes {
    match r
    case Link(predecessor, binding) => PutU64(predecessor, PutBinding(binding, []))
    case Revoke(predecessor, retired) => LIFECYCLE + ([2] + PutU64(predecessor, PutBinding(retired, [])))
    case Replace(predecessor, retired, replacement) =>
      LIFECYCLE + ([1] + PutU64(predecessor, PutBinding(retired, PutBinding(replacement, []))))
  }

  lemma BindingLength(b: Binding, tail: bytes)
    ensures |PutBinding(b, tail)| == |tail| + if b.predecessor.None? then 45 else 77
  {
  }

  /** The three operations never share a length. */
  lemma RequestLength(r: Request)
    ensures r.Link? ==> |EncodeRequest(r)| in {53, 85}
    ensures r.Revoke? ==> |EncodeRequest(r)| in {59, 91}
    ensures r.Replace? ==> |EncodeRequest(r)| in {104, 136, 168}
  {
    match r
    case Link(_, b) => BindingLength(b, []);
    case Revoke(_, b) => BindingLength(b, []);
    case Replace(_, b, c) => BindingLength(c, []); BindingLength(b, PutBinding(c, []));
  }

  lemma LinkBytesTell(p: u64, b: Binding, q: u64, c: Binding)
    requires PutU64(p, PutBinding(b, [])) == PutU64(q, PutBinding(c, []))
    ensures p == q && b == c
  {
    TakeU64App(p, PutBinding(b, []), ());
    TakeU64App(q, PutBinding(c, []), ());
    BindingReadsBack(b, []);
    BindingReadsBack(c, []);
  }

  lemma ReplaceBytesTell(p: u64, b: Binding, b': Binding, q: u64, c: Binding, c': Binding)
    requires PutU64(p, PutBinding(b, PutBinding(b', []))) == PutU64(q, PutBinding(c, PutBinding(c', [])))
    ensures p == q && b == c && b' == c'
  {
    TakeU64App(p, PutBinding(b, PutBinding(b', [])), ());
    TakeU64App(q, PutBinding(c, PutBinding(c', [])), ());
    BindingReadsBack(b, PutBinding(b', []));
    BindingReadsBack(c, PutBinding(c', []));
    BindingReadsBack(b', []);
    BindingReadsBack(c', []);
  }

  lemma SameAfterTag(tag: byte, x: bytes, y: bytes)
    requires LIFECYCLE + ([tag] + x) == LIFECYCLE + ([tag] + y)
    ensures x == y
  {
    assert (LIFECYCLE + ([tag] + x))[6..] == x && (LIFECYCLE + ([tag] + y))[6..] == y;
  }

  /** No two different requests, of one operation or of two, have the same bytes. */
  lemma RequestsTell(r: Request, s: Request)
    requires EncodeRequest(r) == EncodeRequest(s)
    ensures r == s
  {
    RequestLength(r);
    RequestLength(s);
    match (r, s) {
      case (Link(p, b), Link(q, c)) => LinkBytesTell(p, b, q, c);
      case (Revoke(p, b), Revoke(q, c)) =>
        SameAfterTag(2, PutU64(p, PutBinding(b, [])), PutU64(q, PutBinding(c, [])));
        LinkBytesTell(p, b, q, c);
      case (Replace(p, b, b'), Replace(q, c, c')) =>
        SameAfterTag(1, PutU64(p, PutBinding(b, PutBinding(b', []))), PutU64(q, PutBinding(c, PutBinding(c', []))));
        ReplaceBytesTell(p, b, b', q, c, c');
      case _ =>
    }
  }
}
