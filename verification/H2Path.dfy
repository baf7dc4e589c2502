/**
The HTTP/2 data path: IP packets batched into datagram capsules by the sender,
carried as a byte stream in arbitrary pieces, and delivered by the receiver.
*/
module H2Path {
  import opened Common
  import opened Varint
  import opened Capsule
  import Device

  const H2_SEND_BATCH_BYTES := 32 * 1024
  const CONNECT_IP_CONTEXT_ID := 0

  // ----- The context heuristic -----

  predicate LooksLikeIp(p: bytes) { |p| >= 20 && (p[0] / 16 == 4 || p[0] / 16 == 6) }

  /** `strip_datagram_context`. */
  function Strip(payload: bytes): Option<bytes> {
    if payload == [] then None
    else
      var ctx := GetVarint(payload);
      if ctx.Some? && ctx.value.0 == CONNECT_IP_CONTEXT_ID && LooksLikeIp(payload[ctx.value.1..])
      then Some(payload[ctx.value.1..])
      else if LooksLikeIp(payload) then Some(payload)
      else None
  }

  /** The four ways to write the context id zero. */
  predicate ZeroContext(z: bytes) {
    z == [0] || z == [0x40, 0] || z == [0x80, 0, 0, 0] || z == [0xC0, 0, 0, 0, 0, 0, 0, 0]
  }

  /** A packet behind a context id of zero. */
  predicate Behind(z: bytes, payload: bytes, p: bytes) { ZeroContext(z) && payload == z + p && LooksLikeIp(p) }

  lemma ReadsZeroContext(z: bytes, p: bytes)
    requires ZeroContext(z)
    ensures GetVarint(z + p) == Some((0, |z|)) && (z + p)[|z|..] == p
  {
    ZeroIsRead(z + p);
  }

  lemma ZeroContextIsRead(payload: bytes)
    requires GetVarint(payload).Some? && GetVarint(payload).value.0 == 0
    ensures ZeroContext(payload[..GetVarint(payload).value.1])
  {
    ZeroIsRead(payload);
  }

  /**
  The heuristic is exact: it gives the packet behind a context id of zero if there
  is one, in whichever of the four lengths it is written, else the payload itself
  if that looks like a packet, else nothing.
  */
  lemma StripIsExact(payload: bytes, p: bytes)
    ensures Strip(payload) == Some(p) <==>
              || (exists z :: Behind(z, payload, p))
              || (payload == p && LooksLikeIp(p) && forall z, q :: !Behind(z, payload, q))
  {
    forall z, q | Behind(z, payload, q) ensures Strip(payload) == Some(q) {
      ReadsZeroContext(z, q);
    }
    var ctx := GetVarint(payload);
    if ctx.Some? && ctx.value.0 == 0 && LooksLikeIp(payload[ctx.value.1..]) {
      ZeroContextIsRead(payload);
      assert Behind(payload[..ctx.value.1], payload, payload[ctx.value.1..]);
    }
  }

  /** A bare packet that would be taken for a two-byte context id in front of another packet. */
  predicate Ambiguous(p: bytes) {
    |p| >= 22 && p[0] == 0x40 && p[1] == 0 && LooksLikeIp(p[2..])
  }

  /** The heuristic returns a bare packet unchanged exactly when it is not one of the ambiguous ones. */
  lemma StripKeepsBarePackets(p: bytes)
    requires LooksLikeIp(p)
    ensures Strip(p) == Some(p) <==> !Ambiguous(p)
  {
    assert p[0] / 64 == 1;
    assert p[..2][..1] == p[..1];
    assert Masked(p[..2]) == Masked(p[..1]) * 256 + p[1];
    assert Masked(p[..1]) == p[0] % 64;
    assert p[0] % 64 == 0 <==> p[0] == 0x40;
  }

  /** An IPv6 packet, or an IPv4 packet whose header length is at least five words (section 3.1 of RFC 791). */
  predicate IpPacket(p: bytes) {
    |p| >= 20 && (p[0] / 16 == 6 || (p[0] / 16 == 4 && p[0] % 16 >= 5))
  }

  lemma IpPacketsPass(p: bytes)
    requires IpPacket(p)
    ensures Strip(p) == Some(p)
  {
    StripKeepsBarePackets(p);
  }

  // ----- The receiver -----

  /** `drain_capsules` with room in the inbound queue: the packets delivered and the bytes left in the parser. */
  function DrainCapsules(buf: bytes): (seq<bytes>, bytes)
    decreases |buf|
  {
    var f := First(buf);
    if f.None? then ([], buf)
    else
      var item, rest := Interpret(f.value.0), buf[f.value.1..];
      if item.Malformed? then ([], rest)
      else
        var (pkts, end) := DrainCapsules(rest);
        (Delivered(item.capsule) + pkts, end)
  }

  function Delivered(c: Capsule): seq<bytes> {
    if c.Datagram? && Strip(c.payload).Some? then [Strip(c.payload).value] else []
  }

  /** What a drain puts into the inbound queue, whether it found a packet at all, and what stays in the parser. */
  datatype Drain = Drain(queued: seq<bytes>, delivered: bool, rest: bytes)

  /** `drain_capsules`: a full inbound queue drops the packet, a closed one ends the drain. */
  function DrainTo(buf: bytes, room: nat, open: bool): Drain
    decreases |buf|
  {
    var f := First(buf);
    if f.None? then Drain([], false, buf)
    else
      var item, rest := Interpret(f.value.0), buf[f.value.1..];
      if item.Malformed? then Drain([], false, rest)
      else if Delivered(item.capsule) == [] then DrainTo(rest, room, open)
      else if !open then Drain([], true, rest)
      else
        var d := DrainTo(rest, SatSub(room, 1), open);
        Drain((if room > 0 then Delivered(item.capsule) else []) + d.queued, true, d.rest)
  }

  lemma DrainStep(buf: bytes)
    requires First(buf).Some? && Interpret(First(buf).value.0).Good?
    ensures var (f, n) := First(buf).value;
            && DrainCapsules(buf).0 == Delivered(Interpret(f).capsule) + DrainCapsules(buf[n..]).0
            && DrainCapsules(buf).1 == DrainCapsules(buf[n..]).1
  {
  }

  /** An open queue takes the packets in order until it is full; with room for all of them nothing is dropped. */
  lemma {:induction false} OpenDrainFillsTheQueue(buf: bytes, room: nat)
    ensures var (pkts, rest) := DrainCapsules(buf);
            && DrainTo(buf, room, true).queued == pkts[..Min(room, |pkts|)]
            && DrainTo(buf, room, true).delivered == (pkts != [])
            && DrainTo(buf, room, true).rest == rest
    decreases |buf|
  {
    if First(buf).Some? && Interpret(First(buf).value.0).Good? {
      var rest, d := buf[First(buf).value.1..], Delivered(Interpret(First(buf).value.0).capsule);
      DrainStep(buf);
      OpenDrainFillsTheQueue(rest, if d == [] then room else SatSub(room, 1));
      if d == [] {
        assert [] + DrainCapsules(rest).0 == DrainCapsules(rest).0;
      }
    }
  }

  /** Offers the packet of a datagram capsule, if it holds one, to the inbound queue. */
  method HandOver(c: Capsule, inbound: Device.Outbound) returns (tried: bool, gone: bool)
    modifies inbound`sent, inbound`room
    ensures tried <==> Delivered(c) != []
    ensures gone <==> tried && !inbound.open
    ensures if tried && inbound.open && old(inbound.room) > 0
            then inbound.sent == old(inbound.sent) + Delivered(c) && inbound.room == old(inbound.room) - 1
            else inbound.sent == old(inbound.sent) && inbound.room == old(inbound.room)
  {
    tried, gone := false, false;
    if c.Datagram? {
      var p := Strip(c.payload);
      if p.Some? {
        tried := true;
        var s := inbound.TrySend(p.value);
        gone := s.Gone?;
      }
    }
  }

  /** A drain of what is left after one good capsule, in terms of the drain before it. */
  lemma DrainToStep(buf: bytes, room: nat, open: bool)
    requires First(buf).Some? && Interpret(First(buf).value.0).Good?
    ensures var (f, n) := First(buf).value;
            var d, pkt := DrainTo(buf, room, open), Delivered(Interpret(f).capsule);
            if pkt == [] then d == DrainTo(buf[n..], room, open)
            else if !open then d == Drain([], true, buf[n..])
            else
              var e := DrainTo(buf[n..], SatSub(room, 1), open);
              d.delivered && d.rest == e.rest && d.queued == (if room > 0 then pkt else []) + e.queued
  {
  }

  /** What one good capsule queues, and the drain of what is left after it, make up the drain before it. */
  lemma TurnAccounts(buf: bytes, room: nat, open: bool, sent: seq<bytes>, tried: bool, sent2: seq<bytes>, room2: nat)
    requires First(buf).Some? && Interpret(First(buf).value.0).Good?
    requires var pkt := Delivered(Interpret(First(buf).value.0).capsule);
             && (tried <==> pkt != [])
             && if tried && open && room > 0 then sent2 == sent + pkt && room2 == room - 1
                else sent2 == sent && room2 == room
    ensures var d, rest := DrainTo(buf, room, open), buf[First(buf).value.1..];
            var e := DrainTo(rest, room2, open);
            if tried && !open then d.delivered && d.rest == rest && sent + d.queued == sent2
            else d.delivered == (tried || e.delivered) && d.rest == e.rest && sent + d.queued == sent2 + e.queued
  {
    var pkt, e := Delivered(Interpret(First(buf).value.0).capsule), DrainTo(buf[First(buf).value.1..], room2, open);
    DrainToStep(buf, room, open);
    Assoc(sent, pkt, e.queued);
    assert [] + e.queued == e.queued && sent + [] == sent;
  }

  /** One turn of the loop: the next capsule is read and its packet, if it holds one, offered. */
  method Turn(parser: CapsuleParser, inbound: Device.Outbound) returns (more: bool, tried: bool)
    modifies parser, inbound`sent, inbound`room
    ensures more ==> |parser.buf| < |old(parser.buf)|
    ensures var d := DrainTo(old(parser.buf), old(inbound.room), inbound.open);
            if more then
              var e := DrainTo(parser.buf, inbound.room, inbound.open);
              d.delivered == (tried || e.delivered) && d.rest == e.rest
              && old(inbound.sent) + d.queued == inbound.sent + e.queued
            else
              d.delivered == tried && d.rest == parser.buf && old(inbound.sent) + d.queued == inbound.sent
  {
    ghost var buf, room, sent := parser.buf, inbound.room, inbound.sent;
    var r := parser.Next();
    if r.None? || r.value.Malformed? {
      assert sent + [] == sent;
      return false, false;
    }
    var gone;
    tried, gone := HandOver(r.value.capsule, inbound);
    TurnAccounts(buf, room, inbound.open, sent, tried, inbound.sent, inbound.room);
    more := !gone;
  }

  method DrainInto(parser: CapsuleParser, inbound: Device.Outbound) returns (delivered: bool)
    modifies parser, inbound`sent, inbound`room
    ensures var d := DrainTo(old(parser.buf), old(inbound.room), inbound.open);
            delivered == d.delivered && parser.buf == d.rest && inbound.sent == old(inbound.sent) + d.queued
  {
    delivered := false;
    ghost var goal := DrainTo(parser.buf, inbound.room, inbound.open);
    ghost var want := inbound.sent + goal.queued;
    while true
      invariant var d := DrainTo(parser.buf, inbound.room, inbound.open);
                && inbound.sent + d.queued == want && d.rest == goal.rest
                && (delivered || d.delivered) == goal.delivered
      decreases |parser.buf|
    {
      var more, tried := Turn(parser, inbound);
      delivered := delivered || tried;
      if !more {
        return;
      }
    }
  }

  /** Pushing each piece of the stream and draining after each, as the receive loop does. */
  function Receive(buf: bytes, chunks: seq<bytes>): (seq<bytes>, bytes)
    decreases |chunks|
  {
    if chunks == [] then ([], buf)
    else
      var (pkts, rest) := DrainCapsules(Pushed(buf, chunks[0]));
      var (more, end) := Receive(rest, chunks[1..]);
      (pkts + more, end)
  }

  // ----- The sender -----

  /** A packet whose length a capsule can state. */
  type Packet = p: bytes | |p| <= MAX_VARINT witness []

  function Framed(p: Packet): GoodFrame { Frame(CAPSULE_DATAGRAM, p) }

  /** The datagram capsules of a list of packets, end to end. */
  function Stream(ps: seq<Packet>): bytes {
    if ps == [] then [] else Encode(Framed(ps[0])) + Stream(ps[1..])
  }

  lemma {:induction false} StreamAppend(a: seq<Packet>, b: seq<Packet>)
    ensures Stream(a + b) == Stream(a) + Stream(b)
  {
    if a == [] { assert a + b == b; } else {
      assert (a + b)[1..] == a[1..] + b;
      StreamAppend(a[1..], b);
      Assoc(Encode(Framed(a[0])), Stream(a[1..]), Stream(b));
    }
  }

  lemma StreamSnoc(ps: seq<Packet>, p: Packet)
    ensures Stream(ps + [p]) == Stream(ps) + Encode(Framed(p))
  {
    StreamAppend(ps, [p]);
    assert Stream([p]) == Encode(Framed(p)) + [];
  }

  /** One batch: the first packet, and then whatever is already queued, until the batch is long enough. */
  method Batch(first: Packet, queued: seq<Packet>) returns (batch: bytes, n: nat)
    ensures n <= |queued|
    ensures batch == Stream([first] + queued[..n])
    ensures n < |queued| ==> |batch| >= H2_SEND_BATCH_BYTES
    ensures n > 0 ==> |batch| < H2_SEND_BATCH_BYTES + |Encode(Framed(queued[n - 1]))|
  {
    batch := AppendCapsule([], Framed(first));
    n := 0;
    StreamSnoc([], first);
    assert [first] + queued[..0] == [] + [first];
    while |batch| < H2_SEND_BATCH_BYTES && n < |queued|
      invariant n <= |queued|
      invariant batch == Stream([first] + queued[..n])
      invariant n > 0 ==> |batch| < H2_SEND_BATCH_BYTES + |Encode(Framed(queued[n - 1]))|
    {
      StreamSnoc([first] + queued[..n], queued[n]);
      assert [first] + queued[..n + 1] == ([first] + queued[..n]) + [queued[n]];
      batch := AppendCapsule(batch, Framed(queued[n]));
      n := n + 1;
    }
  }

  /** The byte stream a run of batches puts on the wire. */
  function Wire(batches: seq<seq<Packet>>): bytes {
    if batches == [] then [] else Stream(batches[0]) + Wire(batches[1..])
  }

  /** However packets are grouped into batches, the stream is their capsules end to end. */
  lemma {:induction false} WireIsGroupingFree(batches: seq<seq<Packet>>)
    ensures Wire(batches) == Stream(Flatten(batches))
  {
    if batches != [] {
      WireIsGroupingFree(batches[1..]);
      StreamAppend(batches[0], Flatten(batches[1..]));
    }
  }

  function FramedAll(ps: seq<Packet>): seq<GoodFrame> {
    seq(|ps|, i requires 0 <= i < |ps| => Framed(ps[i]))
  }

  lemma {:induction false} StreamIsEncodeAll(ps: seq<Packet>)
    ensures Stream(ps) == EncodeAll(FramedAll(ps))
  {
    if ps != [] {
      StreamIsEncodeAll(ps[1..]);
      assert FramedAll(ps)[1..] == FramedAll(ps[1..]);
    }
  }

  // ----- The receive loop -----

  /** The packets a list of items delivers, in order. */
  function DeliveredAll(items: seq<Item>): seq<bytes> {
    if items == [] then []
    else (if items[0].Good? then Delivered(items[0].capsule) else []) + DeliveredAll(items[1..])
  }

  ghost predicate AllGood(items: seq<Item>) { forall i :: 0 <= i < |items| ==> items[i].Good? }

  lemma {:induction false} DeliveredAppend(xs: seq<Item>, ys: seq<Item>)
    ensures DeliveredAll(xs + ys) == DeliveredAll(xs) + DeliveredAll(ys)
  {
    if xs == [] {
      assert xs + ys == ys;
    } else {
      DeliveredAppend(xs[1..], ys);
      TailOfAppend(xs, ys);
      Assoc(if xs[0].Good? then Delivered(xs[0].capsule) else [], DeliveredAll(xs[1..]), DeliveredAll(ys));
    }
  }

  lemma DeliveredCons(x: Item, xs: seq<Item>)
    ensures DeliveredAll([x] + xs) == (if x.Good? then Delivered(x.capsule) else []) + DeliveredAll(xs)
  {
    assert ([x] + xs)[1..] == xs;
  }

  /**
  One drain of any buffer: what it delivers, followed by what the bytes it leaves
  still hold, is everything in the buffer; and it leaves a complete capsule only
  when it stopped at a body that does not parse.
  */
  lemma {:induction false} DrainLosesNothing(buf: bytes)
    ensures var (pkts, rest) := DrainCapsules(buf);
            && pkts + DeliveredAll(Items(rest).0) == DeliveredAll(Items(buf).0)
            && Items(rest).1 == Items(buf).1
            && (AllGood(Items(buf).0) ==> rest == Items(buf).1)
    decreases |buf|
  {
    if First(buf).Some? {
      var x, rest := Interpret(First(buf).value.0), buf[First(buf).value.1..];
      ItemsStep(buf);
      DeliveredCons(x, Items(rest).0);
      if x.Good? {
        DrainLosesNothing(rest);
        DrainStep(buf);
        Assoc(Delivered(x.capsule), DrainCapsules(rest).0, DeliveredAll(Items(DrainCapsules(rest).1).0));
        if AllGood([x] + Items(rest).0) {
          GoodTail(x, Items(rest).0);
        }
      } else {
        assert !([x] + Items(rest).0)[0].Good?;
      }
    } else {
      assert [] + DeliveredAll([]) == [];
    }
  }

  lemma GoodTail(x: Item, xs: seq<Item>)
    requires AllGood([x] + xs)
    ensures AllGood(xs)
  {
    forall i | 0 <= i < |xs| ensures xs[i].Good? {
      assert ([x] + xs)[i + 1] == xs[i];
    }
  }

  /** No push of the receive loop overflows the parser's buffer. */
  ghost predicate Roomy(buf: bytes, chunks: seq<bytes>)
    decreases |chunks|
  {
    chunks != [] ==>
      |buf| + |chunks[0]| <= MAX_CAPSULE_BUF && Roomy(DrainCapsules(buf + chunks[0]).1, chunks[1..])
  }

  lemma ReceiveStep(buf: bytes, chunks: seq<bytes>)
    requires chunks != [] && |buf| + |chunks[0]| <= MAX_CAPSULE_BUF
    ensures var (pkts, rest) := DrainCapsules(buf + chunks[0]);
            && Receive(buf, chunks).0 == pkts + Receive(rest, chunks[1..]).0
            && Receive(buf, chunks).1 == Receive(rest, chunks[1..]).1
  {
  }

  /** What is still to come is the same whether it is read behind what a drain leaves or behind the whole buffer. */
  lemma DrainThenMore(now: bytes, later: bytes)
    ensures var (pkts, rest) := DrainCapsules(now);
            && DeliveredAll(Items(now + later).0) == pkts + DeliveredAll(Items(rest + later).0)
            && Items(now + later).1 == Items(rest + later).1
  {
    var (pkts, rest) := DrainCapsules(now);
    DrainLosesNothing(now);
    ItemsAppend(now, later);
    ItemsAppend(rest, later);
    var more := Items(Items(now).1 + later).0;
    DeliveredAppend(Items(now).0, more);
    DeliveredAppend(Items(rest).0, more);
    Assoc(pkts, DeliveredAll(Items(rest).0), DeliveredAll(more));
  }

  /**
  For every byte stream, bodies that do not parse included, and every cut of it
  that never overflows the buffer: what the receive loop has delivered, followed
  by what its buffer still holds, is everything in the stream, in order.
  */
  lemma {:induction false} ReceiveLosesNothing(buf: bytes, chunks: seq<bytes>)
    requires Roomy(buf, chunks)
    ensures var (pkts, rest) := Receive(buf, chunks);
            && pkts + DeliveredAll(Items(rest).0) == DeliveredAll(Items(buf + Flatten(chunks)).0)
            && Items(rest).1 == Items(buf + Flatten(chunks)).1
    decreases |chunks|
  {
    if chunks == [] {
      assert buf + [] == buf && [] + DeliveredAll(Items(buf).0) == DeliveredAll(Items(buf).0);
    } else {
      var now, later := buf + chunks[0], Flatten(chunks[1..]);
      var (pkts, rest) := DrainCapsules(now);
      Assoc(buf, chunks[0], later);
      DrainThenMore(now, later);
      ReceiveLosesNothing(rest, chunks[1..]);
      ReceiveStep(buf, chunks);
      var (more, end) := Receive(rest, chunks[1..]);
      Assoc(pkts, more, DeliveredAll(Items(end).0));
    }
  }

  lemma GoodSplits(xs: seq<Item>, ys: seq<Item>)
    requires AllGood(xs + ys)
    ensures AllGood(xs) && AllGood(ys)
  {
    forall i | 0 <= i < |xs| ensures xs[i].Good? { assert (xs + ys)[i] == xs[i]; }
    forall i | 0 <= i < |ys| ensures ys[i].Good? { assert (xs + ys)[|xs| + i] == ys[i]; }
  }

  /** When every body parses, the loop keeps only incomplete capsules between chunks. */
  lemma {:induction false} GoodStreamsKeepUp(buf: bytes, chunks: seq<bytes>)
    requires Fits(buf, chunks) && First(buf).None? && AllGood(Items(buf + Flatten(chunks)).0)
    ensures Roomy(buf, chunks) && First(Receive(buf, chunks).1).None?
    decreases |chunks|
  {
    if chunks != [] {
      var now, later := buf + chunks[0], Flatten(chunks[1..]);
      Assoc(buf, chunks[0], later);
      ItemsAppend(now, later);
      GoodSplits(Items(now).0, Items(Items(now).1 + later).0);
      DrainLosesNothing(now);
      RestIsIncomplete(now);
      ReceiveStep(buf, chunks);
      GoodStreamsKeepUp(Items(now).1, chunks[1..]);
    }
  }

  /**
  For every stream whose bodies all parse, address, route and unknown capsules
  among the datagrams included, the receive loop delivers exactly its packets, in
  order, however the stream is cut.
  */
  lemma ReceiveDelivers(buf: bytes, chunks: seq<bytes>)
    requires Fits(buf, chunks) && First(buf).None? && AllGood(Items(buf + Flatten(chunks)).0)
    ensures Receive(buf, chunks).0 == DeliveredAll(Items(buf + Flatten(chunks)).0)
  {
    GoodStreamsKeepUp(buf, chunks);
    ReceiveLosesNothing(buf, chunks);
    var (pkts, rest) := Receive(buf, chunks);
    assert Items(rest).0 == [] && pkts + [] == pkts;
  }

  // ----- When the cut does not matter -----

  /** No packet stands behind a body that does not parse; `broken` says one has already been passed. */
  predicate Quiet(items: seq<Item>, broken: bool)
    decreases |items|
  {
    items != [] ==>
      && (broken && items[0].Good? ==> Delivered(items[0].capsule) == [])
      && Quiet(items[1..], broken || items[0].Malformed?)
  }

  lemma QuietCons(x: Item, xs: seq<Item>, broken: bool)
    ensures Quiet([x] + xs, broken) <==>
            && (broken && x.Good? ==> Delivered(x.capsule) == [])
            && Quiet(xs, broken || x.Malformed?)
  {
    assert ([x] + xs)[1..] == xs;
  }

  /** Behind a broken body, being quiet is delivering nothing. */
  lemma {:induction false} QuietIsEmpty(items: seq<Item>)
    ensures Quiet(items, true) <==> DeliveredAll(items) == []
  {
    if items != [] {
      QuietIsEmpty(items[1..]);
    }
  }

  lemma {:induction false} QuietBreaks(items: seq<Item>)
    requires Quiet(items, true)
    ensures Quiet(items, false)
  {
    if items != [] {
      if items[0].Good? {
        QuietBreaks(items[1..]);
      }
    }
  }

  /** One drain delivers everything in its buffer exactly when no packet in it stands behind a broken body. */
  lemma {:induction false} DrainIsWholeIffQuiet(buf: bytes)
    ensures DrainCapsules(buf).0 == DeliveredAll(Items(buf).0) <==> Quiet(Items(buf).0, false)
    decreases |buf|
  {
    if First(buf).Some? {
      var x, rest := Interpret(First(buf).value.0), buf[First(buf).value.1..];
      ItemsStep(buf);
      DeliveredCons(x, Items(rest).0);
      QuietCons(x, Items(rest).0, false);
      if x.Good? {
        DrainStep(buf);
        DrainIsWholeIffQuiet(rest);
        SameBehind(Delivered(x.capsule), DrainCapsules(rest).0, DeliveredAll(Items(rest).0));
      } else {
        QuietIsEmpty(Items(rest).0);
      }
    }
  }

  lemma SameBehind(a: seq<bytes>, b: seq<bytes>, c: seq<bytes>)
    ensures a + b == a + c <==> b == c
  {
    if a + b == a + c {
      assert (a + b)[|a|..] == b && (a + c)[|a|..] == c;
    }
  }

  /** What a drain leaves of a quiet stream is quiet with the rest of it. */
  lemma {:induction false} DrainKeepsQuiet(buf: bytes, later: bytes)
    requires Quiet(Items(buf + later).0, false)
    ensures Quiet(Items(DrainCapsules(buf).1 + later).0, false)
    decreases |buf|
  {
    if First(buf).Some? {
      var x, rest := Interpret(First(buf).value.0), buf[First(buf).value.1..];
      ItemsStepAppended(buf, later);
      QuietCons(x, Items(rest + later).0, false);
      if x.Good? {
        DrainStep(buf);
        DrainKeepsQuiet(rest, later);
      } else {
        QuietBreaks(Items(rest + later).0);
      }
    }
  }

  lemma {:induction false} QuietPrefix(xs: seq<Item>, ys: seq<Item>, broken: bool)
    requires Quiet(xs + ys, broken)
    ensures Quiet(xs, broken)
    decreases |xs|
  {
    if xs != [] {
      TailOfAppend(xs, ys);
      QuietPrefix(xs[1..], ys, broken || xs[0].Malformed?);
    }
  }

  /** A quiet stream is delivered whole, however it is cut. */
  lemma {:induction false} QuietStreamsAreDelivered(buf: bytes, chunks: seq<bytes>)
    requires Roomy(buf, chunks) && Quiet(Items(buf + Flatten(chunks)).0, false)
    requires DeliveredAll(Items(buf).0) == []
    ensures Receive(buf, chunks).0 == DeliveredAll(Items(buf + Flatten(chunks)).0)
    decreases |chunks|
  {
    if chunks == [] {
      assert buf + [] == buf;
    } else {
      var now, later := buf + chunks[0], Flatten(chunks[1..]);
      var (pkts, rest) := DrainCapsules(now);
      Assoc(buf, chunks[0], later);
      QuietDrainLeavesNothing(now, later);
      DrainKeepsQuiet(now, later);
      DrainThenMore(now, later);
      QuietStreamsAreDelivered(rest, chunks[1..]);
      ReceiveStep(buf, chunks);
    }
  }

  /** A drain of the front of a quiet stream leaves no packet waiting in the buffer. */
  lemma QuietDrainLeavesNothing(now: bytes, later: bytes)
    requires Quiet(Items(now + later).0, false)
    ensures DeliveredAll(Items(DrainCapsules(now).1).0) == []
  {
    var (pkts, rest) := DrainCapsules(now);
    ItemsAppend(now, later);
    QuietPrefix(Items(now).0, Items(Items(now).1 + later).0, false);
    DrainIsWholeIffQuiet(now);
    DrainLosesNothing(now);
    assert pkts + [] == pkts;
    SameBehind(pkts, DeliveredAll(Items(rest).0), []);
  }

  /**
  Delivery independent of the cut, exactly: every cut of a stream that does not
  overflow the parser's buffer delivers all its packets, if and only if no packet
  of the stream stands behind a body that does not parse.
  */
  lemma EveryCutDeliversIffQuiet(b: bytes)
    requires |b| <= MAX_CAPSULE_BUF
    ensures (forall chunks: seq<bytes> :: CutOf(b, chunks) ==> DeliversAll(b, chunks)) <==> Quiet(Items(b).0, false)
  {
    if Quiet(Items(b).0, false) {
      forall chunks: seq<bytes> | CutOf(b, chunks) ensures DeliversAll(b, chunks) {
        QuietCutDelivers(b, chunks);
      }
    } else {
      WholeCutFails(b);
    }
  }

  /** The chunks are a cut of `b` no push of which overflows. */
  ghost predicate CutOf(b: bytes, chunks: seq<bytes>) { Flatten(chunks) == b && Roomy([], chunks) }

  ghost predicate DeliversAll(b: bytes, chunks: seq<bytes>) { Receive([], chunks).0 == DeliveredAll(Items(b).0) }

  lemma QuietCutDelivers(b: bytes, chunks: seq<bytes>)
    requires CutOf(b, chunks) && Quiet(Items(b).0, false)
    ensures DeliversAll(b, chunks)
  {
    assert [] + Flatten(chunks) == b;
    QuietStreamsAreDelivered([], chunks);
  }

  lemma WholeCutFails(b: bytes)
    requires |b| <= MAX_CAPSULE_BUF && !Quiet(Items(b).0, false)
    ensures CutOf(b, [b]) && !DeliversAll(b, [b])
  {
    OneChunkIsACut(b);
    InOneChunk(b);
    DrainIsWholeIffQuiet(b);
  }

  lemma OneChunkIsACut(b: bytes)
    requires |b| <= MAX_CAPSULE_BUF
    ensures CutOf(b, [b])
  {
    var one := [b];
    assert one[1..] == [] && [] + b == b && b + [] == b;
  }

  // ----- End to end -----

  /**
  Any list of capsules whose bodies parse, encoded and cut in any way the
  parser's buffer admits, delivers exactly its packets in order.
  */
  lemma CapsulesAreDelivered(fs: seq<GoodFrame>, chunks: seq<bytes>)
    requires AllGood(InterpretAll(fs))
    requires forall c :: c in chunks ==> |c| + Largest(fs) <= MAX_CAPSULE_BUF
    requires Flatten(chunks) == EncodeAll(fs)
    ensures Receive([], chunks).0 == DeliveredAll(InterpretAll(fs))
  {
    assert [] + Flatten(chunks) == EncodeAll(fs);
    EncodedStreamFits(fs, [], chunks);
    ItemsOfEncoded(fs);
    ReceiveDelivers([], chunks);
  }

  lemma {:induction false} FramedAreDelivered(ps: seq<Packet>)
    requires forall p :: p in ps ==> IpPacket(p)
    ensures AllGood(InterpretAll(FramedAll(ps))) && DeliveredAll(InterpretAll(FramedAll(ps))) == ps
  {
    if ps != [] {
      assert ps[0] in ps;
      IpPacketsPass(ps[0]);
      FramedAreDelivered(ps[1..]);
      assert InterpretAll(FramedAll(ps)) == [Good(Datagram(ps[0]))] + InterpretAll(FramedAll(ps[1..]));
      DeliveredCons(Good(Datagram(ps[0])), InterpretAll(FramedAll(ps[1..])));
      assert ps == [ps[0]] + ps[1..];
    }
  }

  /**
  The HTTP/2 data path is the identity: any sequence of IP packets, batched in
  any grouping and cut into any pieces the parser's buffer admits, is delivered
  as that same sequence.
  */
  lemma DataPathIsIdentity(batches: seq<seq<Packet>>, chunks: seq<bytes>)
    requires forall p :: p in Flatten(batches) ==> IpPacket(p)
    requires forall c :: c in chunks ==> |c| + Largest(FramedAll(Flatten(batches))) <= MAX_CAPSULE_BUF
    requires Flatten(chunks) == Wire(batches)
    ensures Receive([], chunks).0 == Flatten(batches)
  {
    var ps := Flatten(batches);
    WireIsGroupingFree(batches);
    StreamIsEncodeAll(ps);
    FramedAreDelivered(ps);
    CapsulesAreDelivered(FramedAll(ps), chunks);
  }

  // ----- Where it is not -----

  /** An address capsule whose body stops after its request id. */
  const BROKEN: Frame := Frame(CAPSULE_ADDRESS_ASSIGN, [0])

  lemma BrokenDoesNotParse()
    ensures Interpret(BROKEN) == Malformed
  {
    assert [0][..1] == [0];
    assert Masked([0]) == 0;
    assert GetVarint([0]) == Some((0, 1));
  }

  /** A body that does not parse ends the drain: what stands behind it in the same chunk is not delivered by it. */
  lemma BrokenEndsTheDrain(rest: bytes)
    ensures DrainCapsules(Encode(BROKEN) + rest) == ([], rest)
  {
    BrokenDoesNotParse();
    FirstOfEncoded(BROKEN, rest);
    assert (Encode(BROKEN) + rest)[|Encode(BROKEN)|..] == rest;
  }

  lemma PacketIsDrained(p: Packet)
    requires IpPacket(p)
    ensures DrainCapsules(Encode(Framed(p))) == ([p], [])
  {
    var g := Encode(Framed(p));
    IpPacketsPass(p);
    FirstOfEncoded(Framed(p), []);
    assert g + [] == g && g[|g|..] == [];
    DrainStep(g);
    assert [p] + [] == [p];
  }

  lemma InOneChunk(c: bytes)
    requires |c| <= MAX_CAPSULE_BUF
    ensures Receive([], [c]).0 == DrainCapsules(c).0
  {
    var one := [c];
    assert [] + c == c && one[1..] == [];
    ReceiveStep([], one);
    assert DrainCapsules(c).0 + [] == DrainCapsules(c).0;
  }

  lemma InTwoChunks(c: bytes, d: bytes)
    requires |c| <= MAX_CAPSULE_BUF && |d| <= MAX_CAPSULE_BUF && DrainCapsules(c) == ([], [])
    ensures Receive([], [c, d]).0 == DrainCapsules(d).0
  {
    var two := [c, d];
    assert [] + c == c && two[1..] == [d];
    ReceiveStep([], two);
    InOneChunk(d);
    assert [] + DrainCapsules(d).0 == DrainCapsules(d).0;
  }

  /**
  So delivery depends on the cut when a body does not parse: a packet behind it
  is delivered when it comes in the next chunk, and waits when it comes in the same.
  */
  lemma CutMattersBehindABrokenBody(p: Packet)
    requires IpPacket(p) && |Encode(BROKEN)| + |Encode(Framed(p))| <= MAX_CAPSULE_BUF
    ensures Receive([], [Encode(BROKEN) + Encode(Framed(p))]).0 == []
    ensures Receive([], [Encode(BROKEN), Encode(Framed(p))]).0 == [p]
  {
    var b, g := Encode(BROKEN), Encode(Framed(p));
    BrokenEndsTheDrain(g);
    InOneChunk(b + g);
    BrokenEndsTheDrain([]);
    assert b + [] == b;
    PacketIsDrained(p);
    InTwoChunks(b, g);
  }

  /** A bare packet the heuristic misreads: 0x40 0x00, then what looks like a packet. */
  lemma AMisreadPacket() returns (p: bytes)
    ensures |p| == 22 && LooksLikeIp(p) && Ambiguous(p) && Strip(p) == Some(p[2..])
  {
    p := [0x40, 0] + ([0x45] + seq(19, i => 0));
    StripKeepsBarePackets(p);
    assert p[2] == 0x45;
    assert Masked(p[..2]) == Masked(p[..2][..1]) * 256 + p[1];
    assert p[..2][..1] == [0x40];
  }

  // ----- HTTP/3 datagrams (section 2.1 of RFC 9297) -----

  /** `encode_ip_datagram`: quarter stream id, context id, packet. */
  function EncodeIpDatagram(streamId: nat, p: bytes): bytes
    requires streamId / 4 <= MAX_VARINT
  {
    PutVarint(streamId / 4) + PutVarint(CONNECT_IP_CONTEXT_ID) + p
  }

  /** `decode_ip_datagram`: too short, someone else's, or the packet. */
  datatype Decoded = TooShort | NotOurs | Packet(p: bytes)

  function DecodeIpDatagram(d: bytes, streamId: nat): Decoded {
    var q := GetVarint(d);
    if q.None? then TooShort
    else if q.value.0 != streamId / 4 then NotOurs
    else
      var c := GetVarint(d[q.value.1..]);
      if c.None? then TooShort
      else if c.value.0 != CONNECT_IP_CONTEXT_ID then NotOurs
      else Decoded.Packet(d[q.value.1 + c.value.1..])
  }

  /** A datagram is decoded to its packet by the stream it was sent on, and by no other. */
  lemma IpDatagramRoundTrip(sent: nat, expected: nat, p: bytes)
    requires sent / 4 <= MAX_VARINT
    ensures DecodeIpDatagram(EncodeIpDatagram(sent, p), expected)
         == if sent / 4 == expected / 4 then Decoded.Packet(p) else NotOurs
  {
    var q, c := PutVarint(sent / 4), PutVarint(CONNECT_IP_CONTEXT_ID);
    Layout(q, c, p, []);
    assert EncodeIpDatagram(sent, p) == q + c + p + [];
    VarintRoundTrip(sent / 4, c + p + []);
    VarintRoundTrip(CONNECT_IP_CONTEXT_ID, p + []);
    assert (q + c + p)[|q| + |c|..] == p;
  }

  /** A quarter stream id, a context id of zero, and a packet. */
  ghost predicate Addressed(d: bytes, q: bytes, z: bytes, quarter: nat, p: bytes) {
    Reads(q, quarter) && Reads(z, 0) && d == q + z + p
  }

  lemma AddressedDecodes(d: bytes, q: bytes, z: bytes, streamId: nat, p: bytes)
    requires Addressed(d, q, z, streamId / 4, p)
    ensures DecodeIpDatagram(d, streamId) == Decoded.Packet(p)
  {
    Assoc(q, z, p);
    VarintIsStable(q, z + p);
    VarintIsStable(z, p);
    assert d[|q|..] == z + p && d[|q| + |z|..] == p;
  }

  lemma InThree(d: bytes, n: nat, m: nat)
    requires n + m <= |d|
    ensures d == d[..n] + d[n..][..m] + d[n + m..]
  {
  }

  lemma DecodedIsAddressed(d: bytes, streamId: nat) returns (q: bytes, z: bytes)
    requires DecodeIpDatagram(d, streamId).Packet?
    ensures Addressed(d, q, z, streamId / 4, DecodeIpDatagram(d, streamId).p)
  {
    var n := GetVarint(d).value.1;
    var m := GetVarint(d[n..]).value.1;
    VarintAlone(d);
    VarintAlone(d[n..]);
    InThree(d, n, m);
    q, z := d[..n], d[n..][..m];
  }

  /** A datagram gives a packet exactly when it is this stream's id, a context id of zero, and that packet. */
  lemma IpDatagramIsExact(d: bytes, streamId: nat, p: bytes)
    ensures DecodeIpDatagram(d, streamId) == Decoded.Packet(p) <==>
            exists q, z :: Addressed(d, q, z, streamId / 4, p)
  {
    if q, z :| Addressed(d, q, z, streamId / 4, p) {
      AddressedDecodes(d, q, z, streamId, p);
    }
    if DecodeIpDatagram(d, streamId) == Decoded.Packet(p) {
      var q, z := DecodedIsAddressed(d, streamId);
    }
  }

  /** A datagram cut inside its ids is an error, not someone else's. */
  lemma CutIdsAreTooShort(streamId: nat, p: bytes, n: nat)
    requires streamId / 4 <= MAX_VARINT && n <= VarintLen(streamId / 4)
    ensures n <= |EncodeIpDatagram(streamId, p)|
    ensures DecodeIpDatagram(EncodeIpDatagram(streamId, p)[..n], streamId) == TooShort
  {
    var q, rest := PutVarint(streamId / 4), PutVarint(CONNECT_IP_CONTEXT_ID) + p;
    Assoc(q, PutVarint(CONNECT_IP_CONTEXT_ID), p);
    SliceOfAppend(q, rest, 0, n);
    VarintRoundTrip(streamId / 4, []);
    assert q + [] == q;
    if n < |q| {
      CutVarint(q, n);
    } else {
      assert q[..n] == q && q[|q|..] == [];
    }
  }

  lemma CutVarint(q: bytes, n: nat)
    requires GetVarint(q).Some? && GetVarint(q).value.1 == |q| && n < |q|
    ensures GetVarint(q[..n]).None?
  {
    if n > 0 {
      assert q[..n][0] == q[0];
    }
  }
}
