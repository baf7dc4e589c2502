/**
Capsules (section 3.2 of RFC 9297) and the CONNECT-IP capsules inside them
(section 4.7 of RFC 9484): how they are laid down, and how a parser that is fed
the stream in arbitrary pieces reads them back.
*/
module Capsule {
  import opened Common
  import opened Varint

  const CAPSULE_DATAGRAM := 0
  const CAPSULE_ADDRESS_ASSIGN := 1
  const CAPSULE_ADDRESS_REQUEST := 2
  const CAPSULE_ROUTE_ADVERTISEMENT := 3
  const MAX_CAPSULE_BUF := 256 * 1024

  datatype AssignedAddress = AssignedAddress(requestId: nat, ipVersion: byte, address: bytes, prefixLen: byte)

  datatype Route = Route(ipVersion: byte, start: bytes, end: bytes, protocol: byte)

  datatype Capsule =
    | AddressAssign(addrs: seq<AssignedAddress>)
    | AddressRequest
    | Datagram(payload: bytes)
    | RouteAdvertisement(routes: seq<Route>)
    | Unknown(kind: nat, payload: bytes)

  /** What one complete capsule amounts to: a capsule, or a body that does not parse. */
  datatype Item = Good(capsule: Capsule) | Malformed

  /** A capsule on the wire: its type and its value. */
  datatype Frame = Frame(kind: nat, value: bytes)

  /** A capsule whose type and length a variable-length integer can state. */
  type GoodFrame = f: Frame | f.kind <= MAX_VARINT && |f.value| <= MAX_VARINT witness Frame(0, [])

  function Encode(f: GoodFrame): bytes { PutVarint(f.kind) + PutVarint(|f.value|) + f.value }

  function EncodeAll(fs: seq<GoodFrame>): bytes {
    if fs == [] then [] else Encode(fs[0]) + EncodeAll(fs[1..])
  }

  /** `append_capsule`: the capsule goes behind whatever the buffer already holds. */
  method AppendCapsule(out: bytes, f: GoodFrame) returns (r: bytes)
    ensures r == out + Encode(f)
    ensures |r| == |out| + VarintLen(f.kind) + VarintLen(|f.value|) + |f.value|
  {
    r := out + PutVarint(f.kind);
    r := r + PutVarint(|f.value|);
    r := r + f.value;
    Grouped(out, PutVarint(f.kind), PutVarint(|f.value|), f.value);
  }

  // ----- Reading the bodies -----

  function AddrLen(version: byte): Option<nat> {
    match version case 4 => Some(4) case 6 => Some(16) case _ => None
  }

  function Prepend<T>(xs: seq<T>, r: Option<seq<T>>): Option<seq<T>> {
    if r.Some? then Some(xs + r.value) else None
  }

  lemma PrependUnits<T>(xs: seq<T>, r: Option<seq<T>>)
    ensures Prepend([], r) == r && Prepend(xs, Some([])) == Some(xs)
  {
    assert xs + [] == xs;
    if r.Some? {
      assert [] + r.value == r.value;
    }
  }

  lemma PrependTwice<T>(xs: seq<T>, x: T, r: Option<seq<T>>)
    ensures Prepend(xs, Prepend([x], r)) == Prepend(xs + [x], r)
  {
    if r.Some? {
      assert xs + ([x] + r.value) == (xs + [x]) + r.value;
    }
  }

  /** The assigned address at the front of a buffer, and its length. */
  function OneAddress(v: bytes): (r: Option<(AssignedAddress, nat)>)
    ensures r.Some? ==> 0 < r.value.1 <= |v|
  {
    var id := GetVarint(v);
    if id.None? || id.value.1 == |v| then None
    else
      var at := id.value.1;
      var len := AddrLen(v[at]);
      if len.None? || at + 2 + len.value > |v| then None
      else
        var end := at + 1 + len.value;
        Some((AssignedAddress(id.value.0, v[at], v[at + 1..end], v[end]), end + 1))
  }

  /** `parse_address_assign`. */
  function ParseAssign(v: bytes): Option<seq<AssignedAddress>>
    decreases |v|
  {
    if v == [] then Some([])
    else
      var a := OneAddress(v);
      if a.None? then None else Prepend([a.value.0], ParseAssign(v[a.value.1..]))
  }

  /** The route at the front of a buffer, and its length. */
  function OneRoute(v: bytes): (r: Option<(Route, nat)>)
    ensures r.Some? ==> 0 < r.value.1 <= |v|
  {
    if v == [] then None
    else
      var len := AddrLen(v[0]);
      if len.None? || 2 + 2 * len.value > |v| then None
      else
        var n := len.value;
        Some((Route(v[0], v[1..1 + n], v[1 + n..1 + 2 * n], v[1 + 2 * n]), 2 + 2 * n))
  }

  /** `parse_route_advertisement`. */
  function ParseRoutes(v: bytes): Option<seq<Route>>
    decreases |v|
  {
    if v == [] then Some([])
    else
      var r := OneRoute(v);
      if r.None? then None else Prepend([r.value.0], ParseRoutes(v[r.value.1..]))
  }

  /** What a complete capsule of this type and value is. */
  function Interpret(f: Frame): Item {
    if f.kind == CAPSULE_ADDRESS_ASSIGN then
      var a := ParseAssign(f.value); if a.Some? then Good(AddressAssign(a.value)) else Malformed
    else if f.kind == CAPSULE_ADDRESS_REQUEST then Good(AddressRequest)
    else if f.kind == CAPSULE_ROUTE_ADVERTISEMENT then
      var r := ParseRoutes(f.value); if r.Some? then Good(RouteAdvertisement(r.value)) else Malformed
    else if f.kind == CAPSULE_DATAGRAM then Good(Datagram(f.value))
    else Good(Unknown(f.kind, f.value))
  }

  function InterpretAll(fs: seq<GoodFrame>): seq<Item> {
    seq(|fs|, i requires 0 <= i < |fs| => Interpret(fs[i]))
  }

  // ----- Reading the stream -----

  /** The first complete capsule of a buffer and the bytes it occupies. */
  function First(buf: bytes): (r: Option<(Frame, nat)>)
    ensures r.Some? ==> 2 <= r.value.1 <= |buf|
  {
    var kind := GetVarint(buf);
    if kind.None? then None
    else
      var at := kind.value.1;
      var len := GetVarint(buf[at..]);
      if len.None? then None
      else
        var start := at + len.value.1;
        if |buf| - start < len.value.0 then None
        else Some((Frame(kind.value.0, buf[start..start + len.value.0]), start + len.value.0))
  }

  /** Everything complete in a buffer, in order, and what is left over: the batch reading. */
  function Items(buf: bytes): (seq<Item>, bytes)
    decreases |buf|
  {
    var f := First(buf);
    if f.None? then ([], buf)
    else
      var (items, rest) := Items(buf[f.value.1..]);
      ([Interpret(f.value.0)] + items, rest)
  }

  /** `CapsuleParser`, fed piece by piece. */
  class CapsuleParser {
    var buf: bytes

    constructor ()
      ensures buf == []
    {
      buf := [];
    }

    method Push(data: bytes)
      modifies this
      ensures buf == Pushed(old(buf), data)
      ensures |old(buf)| + |data| <= MAX_CAPSULE_BUF ==> buf == old(buf) + data
      ensures |old(buf)| + |data| > MAX_CAPSULE_BUF ==> buf == []
    {
      if |buf| + |data| > MAX_CAPSULE_BUF {
        buf := [];
        return;
      }
      buf := buf + data;
    }

    /** The next item, if a whole capsule is there; its bytes are removed even when its body does not parse. */
    method Next() returns (r: Option<Item>)
      modifies this
      ensures First(old(buf)).None? ==> r == None && buf == old(buf)
      ensures First(old(buf)).Some? ==>
                r == Some(Interpret(First(old(buf)).value.0)) && buf == old(buf)[First(old(buf)).value.1..]
      ensures forall f: GoodFrame, it: Item, rest: bytes ::
                Carries(f, it) && old(buf) == Encode(f) + rest ==> r == Some(it) && buf == rest
    {
      forall f: GoodFrame, it: Item, rest: bytes | Carries(f, it) && buf == Encode(f) + rest
        ensures First(buf) == Some((f, |Encode(f)|)) && Interpret(f) == it && buf[|Encode(f)|..] == rest
      {
        CarriedIsRead(f, it);
        FirstOfEncoded(f, rest);
      }
      var kind := GetVarint(buf);
      if kind.None? {
        return None;
      }
      var off := kind.value.1;
      var len := GetVarint(buf[off..]);
      if len.None? {
        return None;
      }
      off := off + len.value.1;
      if |buf| - off < len.value.0 {
        return None;
      }
      var value := buf[off..off + len.value.0];
      off := off + len.value.0;
      buf := buf[off..];
      var item := ReadBody(Frame(kind.value.0, value));
      return Some(item);
    }

    /** Calls `Next` until it has nothing. */
    method Drain() returns (items: seq<Item>)
      modifies this
      ensures (items, buf) == Items(old(buf))
    {
      items := [];
      ghost var (all, rest) := Items(buf);
      while true
        invariant items + Items(buf).0 == all && Items(buf).1 == rest
        decreases |buf|
      {
        ghost var left := Items(buf).0;
        var r := Next();
        if r.None? {
          assert items + [] == items;
          return;
        }
        assert left == [r.value] + Items(buf).0;
        assert items + left == (items + [r.value]) + Items(buf).0;
        items := items + [r.value];
      }
    }
  }

  method ReadBody(f: Frame) returns (r: Item)
    ensures r == Interpret(f)
  {
    if f.kind == CAPSULE_ADDRESS_ASSIGN {
      var a := ReadAssign(f.value);
      r := if a.Some? then Good(AddressAssign(a.value)) else Malformed;
    } else if f.kind == CAPSULE_ADDRESS_REQUEST {
      r := Good(AddressRequest);
    } else if f.kind == CAPSULE_ROUTE_ADVERTISEMENT {
      var a := ReadRoutes(f.value);
      r := if a.Some? then Good(RouteAdvertisement(a.value)) else Malformed;
    } else if f.kind == CAPSULE_DATAGRAM {
      r := Good(Datagram(f.value));
    } else {
      r := Good(Unknown(f.kind, f.value));
    }
  }

  /** The address loop; the cursor of the source is what is left to read. */
  method ReadAssign(v: bytes) returns (r: Option<seq<AssignedAddress>>)
    ensures r == ParseAssign(v)
  {
    var out, rest := [], v;
    ghost var goal := ParseAssign(v);
    PrependUnits(out, goal);
    while rest != []
      invariant goal == Prepend(out, ParseAssign(rest))
      decreases |rest|
    {
      var a := OneAddress(rest);
      if a.None? {
        return None;
      }
      PrependTwice(out, a.value.0, ParseAssign(rest[a.value.1..]));
      out, rest := out + [a.value.0], rest[a.value.1..];
    }
    PrependUnits(out, None);
    return Some(out);
  }

  /** The route loop, likewise. */
  method ReadRoutes(v: bytes) returns (r: Option<seq<Route>>)
    ensures r == ParseRoutes(v)
  {
    var out, rest := [], v;
    ghost var goal := ParseRoutes(v);
    PrependUnits(out, goal);
    while rest != []
      invariant goal == Prepend(out, ParseRoutes(rest))
      decreases |rest|
    {
      var a := OneRoute(rest);
      if a.None? {
        return None;
      }
      PrependTwice(out, a.value.0, ParseRoutes(rest[a.value.1..]));
      out, rest := out + [a.value.0], rest[a.value.1..];
    }
    PrependUnits(out, None);
    return Some(out);
  }

  function Pushed(buf: bytes, data: bytes): bytes {
    if |buf| + |data| > MAX_CAPSULE_BUF then [] else buf + data
  }

  /** Pushing each chunk and reading all there is after each. */
  function Feed(buf: bytes, chunks: seq<bytes>): (seq<Item>, bytes)
    decreases |chunks|
  {
    if chunks == [] then ([], buf)
    else
      var (items, rest) := Items(Pushed(buf, chunks[0]));
      var (more, end) := Feed(rest, chunks[1..]);
      (items + more, end)
  }

  /** No push of the run overflows the buffer. */
  ghost predicate Fits(buf: bytes, chunks: seq<bytes>)
    decreases |chunks|
  {
    chunks != [] ==>
      |buf| + |chunks[0]| <= MAX_CAPSULE_BUF && Fits(Items(buf + chunks[0]).1, chunks[1..])
  }

  // ----- Incremental reading equals batch reading -----

  /** A complete capsule stays what it is when more bytes follow. */
  lemma FirstIsStable(buf: bytes, more: bytes)
    requires First(buf).Some?
    ensures First(buf + more) == First(buf)
  {
    var at := GetVarint(buf).value.1;
    var start := at + GetVarint(buf[at..]).value.1;
    var len := GetVarint(buf[at..]).value.0;
    VarintIsStable(buf, more);
    SliceOfAppend(buf, more, at, at);
    VarintIsStable(buf[at..], more);
    SliceOfAppend(buf, more, start, start + len);
  }

  /** Reading a stream in two parts, keeping the remainder, reads the whole. */
  lemma {:induction false} ItemsAppend(a: bytes, b: bytes)
    ensures var (xs, r) := Items(a);
            var (ys, r') := Items(r + b);
            Items(a + b).0 == xs + ys && Items(a + b).1 == r'
    decreases |a|
  {
    if First(a).None? {
      assert Items(a + b).0 == [] + Items(a + b).0;
    } else {
      var n, x := First(a).value.1, [Interpret(First(a).value.0)];
      var (xs, r) := Items(a[n..]);
      ItemsAppend(a[n..], b);
      ItemsStep(a);
      ItemsStepAppended(a, b);
      Assoc(x, xs, Items(r + b).0);
    }
  }

  lemma ItemsStepAppended(a: bytes, b: bytes)
    requires First(a).Some?
    ensures var (f, n) := First(a).value;
            Items(a + b).0 == [Interpret(f)] + Items(a[n..] + b).0 && Items(a + b).1 == Items(a[n..] + b).1
  {
    FirstIsStable(a, b);
    assert (a + b)[First(a).value.1..] == a[First(a).value.1..] + b;
    ItemsStep(a + b);
  }

  lemma ItemsStep(buf: bytes)
    requires First(buf).Some?
    ensures var (f, n) := First(buf).value;
            Items(buf).0 == [Interpret(f)] + Items(buf[n..]).0 && Items(buf).1 == Items(buf[n..]).1
  {
  }

  /**
  Incremental parsing is batch parsing: for every byte stream and every way of
  cutting it into chunks that never overflow the buffer, the items produced and
  the bytes left over are those of reading the whole stream at once.
  */
  lemma {:induction false} FeedIsBatch(buf: bytes, chunks: seq<bytes>)
    requires Fits(buf, chunks) && First(buf).None?
    ensures Feed(buf, chunks).0 == Items(buf + Flatten(chunks)).0
    ensures Feed(buf, chunks).1 == Items(buf + Flatten(chunks)).1
    decreases |chunks|
  {
    if chunks == [] {
      assert buf + [] == buf;
    } else {
      var (items, rest) := Items(buf + chunks[0]);
      RestIsIncomplete(buf + chunks[0]);
      FeedIsBatch(rest, chunks[1..]);
      ItemsAppend(buf + chunks[0], Flatten(chunks[1..]));
      Assoc(buf, chunks[0], Flatten(chunks[1..]));
      assert Flatten(chunks) == chunks[0] + Flatten(chunks[1..]);
    }
  }

  /** What reading leaves over holds no complete capsule. */
  lemma {:induction false} RestIsIncomplete(buf: bytes)
    ensures First(Items(buf).1).None? && |Items(buf).1| <= |buf|
    decreases |buf|
  {
    if First(buf).Some? {
      RestIsIncomplete(buf[First(buf).value.1..]);
    }
  }

  /** A push that would pass the limit forgets the buffer and the chunk; reading goes on as if from the start. */
  lemma OverflowForgets(buf: bytes, data: bytes, chunks: seq<bytes>)
    requires |buf| + |data| > MAX_CAPSULE_BUF
    ensures Feed(buf, [data] + chunks) == Feed([], chunks)
  {
    assert ([data] + chunks)[1..] == chunks;
    assert Items([]) == ([], []);
    assert [] + Feed([], chunks).0 == Feed([], chunks).0;
  }

  /** However the stream is cut, the buffer never holds more than the limit. */
  lemma {:induction false} BufferIsBounded(buf: bytes, chunks: seq<bytes>)
    requires |buf| <= MAX_CAPSULE_BUF
    ensures |Feed(buf, chunks).1| <= MAX_CAPSULE_BUF
    decreases |chunks|
  {
    if chunks != [] {
      RestIsIncomplete(Pushed(buf, chunks[0]));
      BufferIsBounded(Items(Pushed(buf, chunks[0])).1, chunks[1..]);
    }
  }

  // ----- Reading what was written -----

  lemma Layout(k: bytes, n: bytes, v: bytes, rest: bytes)
    ensures var buf := k + n + v + rest;
            && buf == k + (n + v + rest)
            && buf[|k|..] == n + (v + rest)
            && buf[|k| + |n|..|k| + |n| + |v|] == v
  {
    var buf := k + n + v + rest;
    assert buf == k + (n + v + rest);
    assert n + v + rest == n + (v + rest);
  }

  lemma FirstOfEncoded(f: GoodFrame, rest: bytes)
    ensures First(Encode(f) + rest) == Some((f, |Encode(f)|))
  {
    var k, n := PutVarint(f.kind), PutVarint(|f.value|);
    Layout(k, n, f.value, rest);
    VarintRoundTrip(f.kind, n + f.value + rest);
    VarintRoundTrip(|f.value|, f.value + rest);
    assert GetVarint(Encode(f) + rest) == Some((f.kind, |k|));
    assert GetVarint((Encode(f) + rest)[|k|..]) == Some((|f.value|, |n|));
  }

  lemma ItemsBehindOne(f: GoodFrame, rest: bytes)
    ensures Items(Encode(f) + rest).0 == [Interpret(f)] + Items(rest).0
    ensures Items(Encode(f) + rest).1 == Items(rest).1
  {
    FirstOfEncoded(f, rest);
    assert (Encode(f) + rest)[|Encode(f)|..] == rest;
  }

  lemma InterpretCons(fs: seq<GoodFrame>)
    requires fs != []
    ensures InterpretAll(fs) == [Interpret(fs[0])] + InterpretAll(fs[1..])
  {
  }

  /** Every list of capsules, laid end to end, reads back as that list with nothing left over. */
  lemma {:induction false} ItemsOfEncoded(fs: seq<GoodFrame>)
    ensures Items(EncodeAll(fs)).0 == InterpretAll(fs) && Items(EncodeAll(fs)).1 == []
  {
    if fs != [] {
      ItemsOfEncoded(fs[1..]);
      ItemsBehindOne(fs[0], EncodeAll(fs[1..]));
      InterpretCons(fs);
    }
  }

  /** A proper prefix of one capsule holds no complete capsule. */
  lemma PrefixIsIncomplete(f: GoodFrame, n: nat)
    requires n < |Encode(f)|
    ensures First(Encode(f)[..n]).None?
  {
    OnlyCapsule(f);
    NoneInPrefix(Encode(f), n);
  }

  /** A buffer that is exactly one capsule has none in any shorter prefix. */
  lemma NoneInPrefix(e: bytes, n: nat)
    requires First(e).Some? && First(e).value.1 == |e| && n < |e|
    ensures First(e[..n]).None?
  {
    assert e[..n] + e[n..] == e;
    if First(e[..n]).Some? {
      FirstIsStable(e[..n], e[n..]);
    }
  }

  lemma OnlyCapsule(f: GoodFrame)
    ensures First(Encode(f)) == Some((f, |Encode(f)|))
  {
    FirstOfEncoded(f, []);
    assert Encode(f) + [] == Encode(f);
  }

  /** How many bytes of a stream are left waiting for more once its complete capsules are read. */
  function Waiting(buf: bytes): nat { |Items(buf).1| }

  /** A cut inside the first capsule leaves everything so far waiting. */
  lemma CutInsideOne(f: GoodFrame, more: bytes, n: nat)
    requires n < |Encode(f)|
    ensures Waiting((Encode(f) + more)[..n]) == n
  {
    SliceOfAppend(Encode(f), more, 0, n);
    PrefixIsIncomplete(f, n);
  }

  /** A cut behind the first capsule leaves what the same cut of the rest leaves. */
  lemma CutBehindOne(f: GoodFrame, more: bytes, n: nat)
    requires |Encode(f)| <= n <= |Encode(f) + more|
    ensures Waiting((Encode(f) + more)[..n]) == Waiting(more[..n - |Encode(f)|])
  {
    assert (Encode(f) + more)[..n] == Encode(f) + more[..n - |Encode(f)|];
    ItemsBehindOne(f, more[..n - |Encode(f)|]);
  }

  /** The length of the longest capsule of a list, as encoded. */
  function Largest(fs: seq<GoodFrame>): nat {
    if fs == [] then 0 else Max(|Encode(fs[0])|, Largest(fs[1..]))
  }

  lemma CutOne(f: GoodFrame, more: bytes, n: nat, most: nat)
    requires n <= |Encode(f) + more|
    requires |Encode(f)| <= n ==> Waiting(more[..n - |Encode(f)|]) <= most
    ensures Waiting((Encode(f) + more)[..n]) <= Max(|Encode(f)|, most)
  {
    if n < |Encode(f)| {
      CutInsideOne(f, more, n);
    } else {
      CutBehindOne(f, more, n);
    }
  }

  /** However an encoded stream is cut, no more than one capsule is ever left waiting. */
  lemma {:induction false} CutLeavesLessThanOne(fs: seq<GoodFrame>, n: nat)
    requires n <= |EncodeAll(fs)|
    ensures Waiting(EncodeAll(fs)[..n]) <= Largest(fs)
    decreases |fs|
  {
    if fs == [] {
      assert EncodeAll(fs)[..n] == [];
    } else {
      var f, more := fs[0], EncodeAll(fs[1..]);
      assert EncodeAll(fs) == Encode(f) + more && |EncodeAll(fs)| == |Encode(f)| + |more|;
      if n >= |Encode(f)| {
        CutLeavesLessThanOne(fs[1..], n - |Encode(f)|);
      }
      CutOne(f, more, n, Largest(fs[1..]));
    }
  }

  /** When the largest capsule and the largest chunk fit together, no push of an encoded stream overflows. */
  lemma {:induction false} EncodedStreamFits(fs: seq<GoodFrame>, done: bytes, chunks: seq<bytes>)
    requires forall c :: c in chunks ==> |c| + Largest(fs) <= MAX_CAPSULE_BUF
    requires done + Flatten(chunks) == EncodeAll(fs)
    ensures Fits(Items(done).1, chunks)
    decreases |chunks|
  {
    if chunks != [] {
      var c, later := chunks[0], Flatten(chunks[1..]);
      assert c in chunks;
      SliceOfAppend(done, Flatten(chunks), 0, |done|);
      assert EncodeAll(fs)[..|done|] == done;
      CutLeavesLessThanOne(fs, |done|);
      ItemsAppend(done, c);
      Assoc(done, c, later);
      EncodedStreamFits(fs, done + c, chunks[1..]);
    }
  }

  // ----- The CONNECT-IP bodies -----

  ghost predicate ValidAddress(a: AssignedAddress) {
    && a.requestId <= MAX_VARINT
    && ((a.ipVersion == 4 && |a.address| == 4) || (a.ipVersion == 6 && |a.address| == 16))
  }

  function EncodeAddress(a: AssignedAddress): bytes
    requires ValidAddress(a)
  {
    PutVarint(a.requestId) + [a.ipVersion] + a.address + [a.prefixLen]
  }

  function EncodeAddresses(xs: seq<AssignedAddress>): bytes
    requires forall a :: a in xs ==> ValidAddress(a)
  {
    if xs == [] then [] else assert xs[0] in xs; EncodeAddress(xs[0]) + EncodeAddresses(xs[1..])
  }

  lemma AddressLayout(id: bytes, version: byte, addr: bytes, prefix: byte, rest: bytes)
    ensures var v := id + [version] + addr + [prefix] + rest;
            && v == id + ([version] + addr + [prefix] + rest)
            && v[|id|] == version && v[|id| + 1..|id| + 1 + |addr|] == addr && v[|id| + 1 + |addr|] == prefix
  {
  }

  lemma OneAddressOfEncoded(a: AssignedAddress, rest: bytes)
    requires ValidAddress(a)
    ensures OneAddress(EncodeAddress(a) + rest) == Some((a, |EncodeAddress(a)|))
  {
    AddressLayout(PutVarint(a.requestId), a.ipVersion, a.address, a.prefixLen, rest);
    VarintRoundTrip(a.requestId, [a.ipVersion] + a.address + [a.prefixLen] + rest);
  }

  /** Every list of assigned addresses reads back as itself. */
  lemma {:induction false} AssignRoundTrip(xs: seq<AssignedAddress>)
    requires forall a :: a in xs ==> ValidAddress(a)
    ensures ParseAssign(EncodeAddresses(xs)) == Some(xs)
  {
    if xs != [] {
      assert xs[0] in xs;
      var e, more := EncodeAddress(xs[0]), EncodeAddresses(xs[1..]);
      OneAddressOfEncoded(xs[0], more);
      AssignRoundTrip(xs[1..]);
      assert (e + more)[|e|..] == more;
      assert [xs[0]] + xs[1..] == xs;
    }
  }

  ghost predicate ValidRoute(r: Route) {
    && ((r.ipVersion == 4 && |r.start| == 4) || (r.ipVersion == 6 && |r.start| == 16))
    && |r.end| == |r.start|
  }

  function EncodeRoute(r: Route): bytes { [r.ipVersion] + r.start + r.end + [r.protocol] }

  function EncodeRoutes(rs: seq<Route>): bytes {
    if rs == [] then [] else EncodeRoute(rs[0]) + EncodeRoutes(rs[1..])
  }

  lemma OneRouteOfEncoded(r: Route, rest: bytes)
    requires ValidRoute(r)
    ensures OneRoute(EncodeRoute(r) + rest) == Some((r, |EncodeRoute(r)|))
  {
    var v, n := EncodeRoute(r) + rest, |r.start|;
    assert v[0] == r.ipVersion && v[1 + 2 * n] == r.protocol;
    assert v[1..1 + n] == r.start && v[1 + n..1 + 2 * n] == r.end;
  }

  /** Every list of routes reads back as itself. */
  lemma {:induction false} RoutesRoundTrip(rs: seq<Route>)
    requires forall r :: r in rs ==> ValidRoute(r)
    ensures ParseRoutes(EncodeRoutes(rs)) == Some(rs)
  {
    if rs != [] {
      var e, more := EncodeRoute(rs[0]), EncodeRoutes(rs[1..]);
      OneRouteOfEncoded(rs[0], more);
      RoutesRoundTrip(rs[1..]);
      assert (e + more)[|e|..] == more;
      assert [rs[0]] + rs[1..] == rs;
    }
  }

  lemma OneRouteIsExact(v: bytes)
    requires OneRoute(v).Some?
    ensures var (r, n) := OneRoute(v).value; ValidRoute(r) && EncodeRoute(r) == v[..n]
  {
    var n := AddrLen(v[0]).value;
    assert v[..2 + 2 * n] == [v[0]] + v[1..1 + n] + v[1 + n..1 + 2 * n] + [v[1 + 2 * n]];
  }

  lemma EncodeRoutesCons(r: Route, rs: seq<Route>)
    ensures EncodeRoutes([r] + rs) == EncodeRoute(r) + EncodeRoutes(rs)
  {
    assert ([r] + rs)[1..] == rs;
  }

  /** Only the encoding of a list of valid routes is read as one, and it is read as that list. */
  lemma {:induction false} RoutesAreExact(v: bytes)
    requires ParseRoutes(v).Some?
    ensures var rs := ParseRoutes(v).value; (forall r :: r in rs ==> ValidRoute(r)) && EncodeRoutes(rs) == v
    decreases |v|
  {
    if v != [] {
      var (r, n) := OneRoute(v).value;
      RoutesAreExact(v[n..]);
      OneRouteIsExact(v);
      EncodeRoutesCons(r, ParseRoutes(v[n..]).value);
      assert v[..n] + v[n..] == v;
    }
  }

  /** No assigned address starts here: one is cut short, or its address family is unknown. */
  ghost predicate NoAddress(t: bytes) {
    || (exists a: AssignedAddress, n: nat :: CutShort(t, a, n))
    || (exists id: nat, version: byte, rest: bytes :: BadVersion(t, id, version, rest))
  }

  ghost predicate CutShort(t: bytes, a: AssignedAddress, n: nat) {
    ValidAddress(a) && 0 < n < |EncodeAddress(a)| && t == EncodeAddress(a)[..n]
  }

  ghost predicate BadVersion(t: bytes, id: nat, version: byte, rest: bytes) {
    id <= MAX_VARINT && version != 4 && version != 6 && t == PutVarint(id) + ([version] + rest)
  }

  /** What is read from a buffer is read the same when more follows. */
  lemma AddressIsStable(t: bytes, more: bytes)
    requires OneAddress(t).Some?
    ensures OneAddress(t + more) == OneAddress(t)
  {
    VarintIsStable(t, more);
    var at := GetVarint(t).value.1;
    var end := at + 1 + AddrLen(t[at]).value;
    SliceOfAppend(t, more, at + 1, end);
  }

  lemma NoAddressIsRead(t: bytes)
    requires NoAddress(t)
    ensures t != [] && OneAddress(t).None?
  {
    if a: AssignedAddress, n: nat :| CutShort(t, a, n) {
      var e := EncodeAddress(a);
      assert t + e[n..] == e && e + [] == e;
      OneAddressOfEncoded(a, []);
      if OneAddress(t).Some? {
        AddressIsStable(t, e[n..]);
      }
    } else {
      var id: nat, version: byte, rest: bytes :| BadVersion(t, id, version, rest);
      VarintRoundTrip(id, [version] + rest);
    }
  }

  /** Addresses, then bytes at which none starts: the whole body is refused. */
  lemma {:induction false} BrokenAssign(xs: seq<AssignedAddress>, t: bytes)
    requires (forall a :: a in xs ==> ValidAddress(a)) && NoAddress(t)
    ensures ParseAssign(EncodeAddresses(xs) + t).None?
  {
    NoAddressIsRead(t);
    if xs == [] {
      assert EncodeAddresses(xs) + t == t;
    } else {
      assert xs[0] in xs;
      var e, more := EncodeAddress(xs[0]), EncodeAddresses(xs[1..]);
      BrokenAssign(xs[1..], t);
      Assoc(e, more, t);
      OneAddressOfEncoded(xs[0], more + t);
      assert (e + (more + t))[|e|..] == more + t;
    }
  }

  // ----- Whole streams -----

  /** The frame carries this capsule, or a body that is none. */
  ghost predicate Carries(f: Frame, it: Item) {
    match it
    case Good(AddressAssign(xs)) =>
      f.kind == 1 && (forall a :: a in xs ==> ValidAddress(a)) && f.value == EncodeAddresses(xs)
    case Good(AddressRequest) => f.kind == 2
    case Good(Datagram(p)) => f == Frame(0, p)
    case Good(RouteAdvertisement(rs)) =>
      f.kind == 3 && (forall r :: r in rs ==> ValidRoute(r)) && f.value == EncodeRoutes(rs)
    case Good(Unknown(k, p)) => k > 3 && f == Frame(k, p)
    case Malformed =>
      || (f.kind == 1 && exists xs, t :: Broken(f.value, xs, t))
      || (f.kind == 3 && forall rs :: (forall r :: r in rs ==> ValidRoute(r)) ==> EncodeRoutes(rs) != f.value)
  }

  ghost predicate Broken(v: bytes, xs: seq<AssignedAddress>, t: bytes) {
    (forall a :: a in xs ==> ValidAddress(a)) && NoAddress(t) && v == EncodeAddresses(xs) + t
  }

  lemma CarriedIsRead(f: Frame, it: Item)
    requires Carries(f, it)
    ensures Interpret(f) == it
  {
    match it
    case Good(AddressAssign(xs)) => AssignRoundTrip(xs);
    case Good(RouteAdvertisement(rs)) => RoutesRoundTrip(rs);
    case Malformed =>
      if f.kind == 1 {
        var xs, t :| Broken(f.value, xs, t);
        BrokenAssign(xs, t);
      } else if ParseRoutes(f.value).Some? {
        RoutesAreExact(f.value);
      }
    case _ =>
  }

  lemma FramesReadBack(fs: seq<GoodFrame>, chunks: seq<bytes>)
    requires forall c :: c in chunks ==> |c| + Largest(fs) <= MAX_CAPSULE_BUF
    requires Flatten(chunks) == EncodeAll(fs)
    ensures Feed([], chunks).0 == InterpretAll(fs) && Feed([], chunks).1 == []
  {
    assert [] + Flatten(chunks) == EncodeAll(fs);
    EncodedStreamFits(fs, [], chunks);
    FeedIsBatch([], chunks);
    ItemsOfEncoded(fs);
  }

  /**
  The parser undoes the encoder for every chunking: feeding the frames of any list
  of capsules, end to end, in any pieces of which the largest fits the buffer
  together with the largest frame, yields exactly those capsules in order, a body
  that is none costing only itself, and the buffer ends empty.
  */
  lemma ParserUndoesEncoder(fs: seq<GoodFrame>, items: seq<Item>, chunks: seq<bytes>)
    requires |fs| == |items| && forall i :: 0 <= i < |fs| ==> Carries(fs[i], items[i])
    requires forall c :: c in chunks ==> |c| + Largest(fs) <= MAX_CAPSULE_BUF
    requires Flatten(chunks) == EncodeAll(fs)
    ensures Feed([], chunks) == (items, [])
  {
    FramesReadBack(fs, chunks);
    forall i | 0 <= i < |fs| ensures Interpret(fs[i]) == items[i] {
      CarriedIsRead(fs[i], items[i]);
    }
    assert InterpretAll(fs) == items;
  }
}
