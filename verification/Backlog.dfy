/**
The app-to-network backlog. One queue is shared by every flow; a flow that
refuses its head entry keeps the rest of its own entries queued, and every other
flow still drains.
*/
module Backlog {
  import opened Common
  import opened Liveness
  import opened FlowState

  const MAX_BACKLOG_BYTES := 512 * 1024

  datatype DataIn =
    | Tcp(id: nat, data: bytes)
    | TcpClose(id: nat)
    | Udp(id: nat, data: bytes)
    | UdpClose(id: nat)

  function Size(d: DataIn): nat {
    if d.Tcp? || d.Udp? then |d.data| else 0
  }

  function Total(q: seq<DataIn>): nat {
    if q == [] then 0 else Size(q[0]) + Total(q[1..])
  }

  function Ids(q: seq<DataIn>): set<nat> { set d | d in q :: d.id }

  /** The entries of one flow, in order. */
  function Of(q: seq<DataIn>, id: nat): seq<DataIn> {
    if q == [] then [] else (if q[0].id == id then [q[0]] else []) + Of(q[1..], id)
  }

  /** The entries of every other flow, in order: `retain` in `Backlog::purge`. */
  function Without(q: seq<DataIn>, ids: set<nat>): seq<DataIn> {
    if q == [] then [] else (if q[0].id in ids then [] else [q[0]]) + Without(q[1..], ids)
  }

  /** The TCP bytes carried by a queue. */
  function Payload(q: seq<DataIn>): bytes {
    if q == [] then [] else (if q[0].Tcp? then q[0].data else []) + Payload(q[1..])
  }

  /** How many TCP bytes come before the first `TcpClose`, if there is one. */
  function CloseAt(q: seq<DataIn>): Option<nat> {
    if q == [] then None
    else if q[0].TcpClose? then Some(0)
    else Shift(CloseAt(q[1..]), if q[0].Tcp? then |q[0].data| else 0)
  }

  /** How many `TcpClose` entries a queue holds. */
  function Closes(q: seq<DataIn>): nat {
    if q == [] then 0 else (if q[0].TcpClose? then 1 else 0) + Closes(q[1..])
  }

  function Shift(o: Option<nat>, n: nat): Option<nat> {
    if o.Some? then Some(o.value + n) else None
  }

  /** The two flow tables of `NetStack`. */
  datatype Tables = Tables(tcp: map<nat, Flow>, udp: set<nat>)

  // ----- One entry -----

  /** What a live flow does with an entry: the flow after it, and the part it defers. */
  function Offer(f: Flow, d: DataIn, max: nat): (Flow, Option<DataIn>) {
    match d
    case Tcp(id, data) =>
      if |f.pending| >= max then (f, Some(d))
      else
        var space := max - |f.pending|;
        if |data| <= space then (f.(pending := f.pending + data), None)
        else (f.(pending := f.pending + data[..space]), Some(Tcp(id, data[space..])))
    case TcpClose(_) => (f.(halfClosed := true), None)
    case _ => (f, None)
  }

  /** `try_handle_data`. */
  function TryHandle(t: Tables, d: DataIn, max: nat): (Tables, Option<DataIn>) {
    if d.UdpClose? then (t.(udp := t.udp - {d.id}), None)
    else if (d.Tcp? || d.TcpClose?) && d.id in t.tcp then
      var (f, back) := Offer(t.tcp[d.id], d, max);
      (t.(tcp := t.tcp[d.id := f]), back)
    else (t, None)
  }

  // ----- One pass over the queue -----

  /** `drain_backlog`: the tables after the pass and the entries kept. */
  function Drain(t: Tables, q: seq<DataIn>, blocked: set<nat>, max: nat): (Tables, seq<DataIn>)
    decreases |q|
  {
    if q == [] then (t, [])
    else if q[0].id in blocked then
      var (t', kept) := Drain(t, q[1..], blocked, max);
      (t', [q[0]] + kept)
    else
      var (t1, back) := TryHandle(t, q[0], max);
      if back.None? then Drain(t1, q[1..], blocked, max)
      else
        var (t', kept) := Drain(t1, q[1..], blocked + {q[0].id}, max);
        (t', [back.value] + kept)
  }

  /** The same pass over one flow's private queue, with no other flow in the process. */
  function DrainOne(f: Option<Flow>, q: seq<DataIn>, max: nat): (Option<Flow>, seq<DataIn>)
    decreases |q|
  {
    if q == [] || f.None? then (f, [])
    else
      var (f', back) := Offer(f.value, q[0], max);
      if back.None? then DrainOne(Some(f'), q[1..], max)
      else (Some(f'), [back.value] + q[1..])
  }

  // ----- Resets -----

  /** The flows `reap_wedged` finds dead because nothing they sent is acknowledged. */
  function StalledIn(tcp: map<nat, Flow>, now: nat): set<nat> {
    set id | id in tcp && Stalled(tcp[id].watch, now)
  }

  /** The second test of `reap_wedged`; an entry of a flow that is gone counts as wedged. */
  predicate Wedged(f: Option<Flow>, now: nat) {
    f.Some? ==> SatSub(now, f.value.lastProgress) >= WEDGE_TIMEOUT
  }

  function WedgedIn(tcp: map<nat, Flow>, blocked: set<nat>, now: nat): set<nat> {
    set id | id in blocked && Wedged(Lookup(tcp, id), now)
  }

  function ResetFlows(tcp: map<nat, Flow>, ids: set<nat>): map<nat, Flow> {
    map id | id in tcp :: if id in ids then Reset(tcp[id]) else tcp[id]
  }

  // ----- Queue algebra -----

  lemma {:induction false} OfAppend(a: seq<DataIn>, b: seq<DataIn>, id: nat)
    ensures Of(a + b, id) == Of(a, id) + Of(b, id)
  {
    if a == [] {
      assert a + b == b;
    } else {
      OfAppend(a[1..], b, id);
      TailOfAppend(a, b);
      Assoc(if a[0].id == id then [a[0]] else [], Of(a[1..], id), Of(b, id));
    }
  }

  lemma {:induction false} PayloadAppend(a: seq<DataIn>, b: seq<DataIn>)
    ensures Payload(a + b) == Payload(a) + Payload(b)
  {
    if a == [] {
      assert a + b == b;
    } else {
      PayloadAppend(a[1..], b);
      TailOfAppend(a, b);
      Assoc(if a[0].Tcp? then a[0].data else [], Payload(a[1..]), Payload(b));
    }
  }

  lemma {:induction false} TotalAppend(a: seq<DataIn>, b: seq<DataIn>)
    ensures Total(a + b) == Total(a) + Total(b)
  {
    if a == [] {
      assert a + b == b;
    } else {
      TotalAppend(a[1..], b);
      TailOfAppend(a, b);
    }
  }

  lemma {:induction false} CloseAtAppend(a: seq<DataIn>, b: seq<DataIn>)
    ensures CloseAt(a + b) == if CloseAt(a).Some? then CloseAt(a) else Shift(CloseAt(b), |Payload(a)|)
  {
    if a == [] {
      assert a + b == b;
    } else {
      CloseAtAppend(a[1..], b);
      TailOfAppend(a, b);
    }
  }

  lemma {:induction false} ClosesAppend(a: seq<DataIn>, b: seq<DataIn>)
    ensures Closes(a + b) == Closes(a) + Closes(b)
  {
    if a == [] {
      assert a + b == b;
    } else {
      ClosesAppend(a[1..], b);
      TailOfAppend(a, b);
    }
  }

  /** What a queue's size counts: the TCP bytes it carries and the bytes of its datagrams. */
  lemma {:induction false} TotalIsAllBytes(q: seq<DataIn>)
    ensures Total(q) == |Payload(q)| + |DatagramBytes(q)|
  {
    if q != [] {
      TotalIsAllBytes(q[1..]);
    }
  }

  function DatagramBytes(q: seq<DataIn>): bytes {
    if q == [] then [] else (if q[0].Udp? then q[0].data else []) + DatagramBytes(q[1..])
  }

  lemma {:induction false} OfEmpty(q: seq<DataIn>, id: nat)
    ensures Of(q, id) == [] <==> id !in Ids(q)
    ensures forall d :: d in Of(q, id) ==> d in q && d.id == id
  {
    if q != [] {
      OfEmpty(q[1..], id);
      assert forall d :: d in q <==> d == q[0] || d in q[1..];
      if id in Ids(q) && q[0].id != id {
        var d :| d in q && d.id == id;
        assert d in q[1..];
      }
    }
  }

  lemma {:induction false} OfWithout(q: seq<DataIn>, ids: set<nat>, id: nat)
    ensures Of(Without(q, ids), id) == if id in ids then [] else Of(q, id)
  {
    if q != [] {
      OfWithout(q[1..], ids, id);
      OfAppend(if q[0].id in ids then [] else [q[0]], Without(q[1..], ids), id);
    }
  }

  lemma {:induction false} TotalWithout(q: seq<DataIn>, ids: set<nat>)
    ensures Total(Without(q, ids)) <= Total(q)
  {
    if q != [] {
      TotalWithout(q[1..], ids);
      TotalAppend(if q[0].id in ids then [] else [q[0]], Without(q[1..], ids));
    }
  }

  lemma IdsWithout(q: seq<DataIn>, ids: set<nat>)
    ensures Ids(Without(q, ids)) == Ids(q) - ids
  {
    forall id | true ensures id in Ids(Without(q, ids)) <==> id in Ids(q) && id !in ids {
      OfEmpty(q, id);
      OfEmpty(Without(q, ids), id);
      OfWithout(q, ids, id);
    }
  }

  // ----- Isolation -----

  /** An entry touches the flow it names and no other; an entry for an unknown flow vanishes. */
  lemma TryHandleIsLocal(t: Tables, d: DataIn, max: nat, id: nat)
    ensures var (t1, back) := TryHandle(t, d, max);
            && (back.Some? ==> back.value.id == d.id && d.id in t.tcp)
            && Lookup(t1.tcp, id) == (if id == d.id && id in t.tcp then Some(Offer(t.tcp[id], d, max).0)
                                      else Lookup(t.tcp, id))
            && (d.id in t.tcp ==> back == Offer(t.tcp[d.id], d, max).1)
            && (id in t1.udp <==> id in t.udp && !(d.UdpClose? && d.id == id))
  {
  }

  /**
  Flow isolation: what a pass over the shared backlog does to one flow is what
  draining that flow's own private queue alone would do.
  */
  lemma {:induction false} DrainIsIsolated(t: Tables, q: seq<DataIn>, blocked: set<nat>, max: nat, id: nat)
    ensures var (t', kept) := Drain(t, q, blocked, max);
            if id in blocked then Lookup(t'.tcp, id) == Lookup(t.tcp, id) && Of(kept, id) == Of(q, id)
            else
              var (f, left) := DrainOne(Lookup(t.tcp, id), Of(q, id), max);
              Lookup(t'.tcp, id) == f && Of(kept, id) == left
    decreases |q|
  {
    if q != [] {
      assert if q[0].id == id then Of(q, id)[0] == q[0] && Of(q, id)[1..] == Of(q[1..], id)
             else Of(q, id) == Of(q[1..], id);
      if q[0].id in blocked {
        DrainIsIsolated(t, q[1..], blocked, max, id);
        OfAppend([q[0]], Drain(t, q[1..], blocked, max).1, id);
      } else {
        var (t1, back) := TryHandle(t, q[0], max);
        TryHandleIsLocal(t, q[0], max, id);
        if back.None? {
          DrainIsIsolated(t1, q[1..], blocked, max, id);
        } else {
          DrainIsIsolated(t1, q[1..], blocked + {q[0].id}, max, id);
          OfAppend([back.value], Drain(t1, q[1..], blocked + {q[0].id}, max).1, id);
        }
      }
    }
  }

  /** Nothing outside a flow's own entries and its own state can change what a pass does to it. */
  lemma OtherFlowsDoNotMatter(t: Tables, q: seq<DataIn>, u: Tables, r: seq<DataIn>, max: nat, id: nat)
    requires Lookup(t.tcp, id) == Lookup(u.tcp, id) && Of(q, id) == Of(r, id)
    ensures var (t', kept), (u', left) := Drain(t, q, {}, max), Drain(u, r, {}, max);
            Lookup(t'.tcp, id) == Lookup(u'.tcp, id) && Of(kept, id) == Of(left, id)
  {
    DrainIsIsolated(t, q, {}, max, id);
    DrainIsIsolated(u, r, {}, max, id);
  }

  // ----- What a pass does to one flow -----

  /** Only the pending bytes and the half-close mark of a flow move. */
  ghost predicate SameOtherwise(f: Flow, g: Flow) {
    g == f.(pending := g.pending, halfClosed := g.halfClosed)
  }

  lemma PayloadOfOne(d: DataIn)
    ensures Payload([d]) == if d.Tcp? then d.data else []
  {
  }

  /** One entry: its bytes go to the end of `pending`, as many as fit, and the rest is handed back. */
  lemma OfferMovesBytes(f: Flow, d: DataIn, max: nat)
    requires |f.pending| <= max
    ensures var (g, back) := Offer(f, d, max);
            && SameOtherwise(f, g) && |f.pending| <= |g.pending| <= max
            && g.pending + (if back.Some? then Payload([back.value]) else []) == f.pending + Payload([d])
            && (back.Some? ==> back.value.Tcp? && |g.pending| == max && g.halfClosed == f.halfClosed
                               && Size(back.value) <= Size(d))
            && g.halfClosed == (f.halfClosed || d.TcpClose?)
  {
    PayloadOfOne(d);
    var space := SatSub(max, |f.pending|);
    if d.Tcp? && space < |d.data| {
      PayloadOfOne(Tcp(d.id, d.data[space..]));
      Assoc(f.pending, d.data[..space], d.data[space..]);
      assert d.data[..space] + d.data[space..] == d.data;
    }
  }

  /**
  Draining moves bytes from the front of the queue to the end of `pending`
  without losing, repeating or reordering any, never past `max`, and stops only
  on a TCP chunk that finds `pending` exactly full.
  */
  lemma {:induction false} DrainOneMovesBytes(f: Flow, q: seq<DataIn>, max: nat)
    requires |f.pending| <= max
    ensures var (g, kept) := DrainOne(Some(f), q, max);
            && g.Some? && SameOtherwise(f, g.value)
            && g.value.pending + Payload(kept) == f.pending + Payload(q)
            && |g.value.pending| <= max
            && (kept != [] ==> kept[0].Tcp? && |g.value.pending| == max)
    decreases |q|
  {
    if q != [] {
      var (g, back) := Offer(f, q[0], max);
      OfferMovesBytes(f, q[0], max);
      assert q == [q[0]] + q[1..];
      PayloadAppend([q[0]], q[1..]);
      if back.None? {
        DrainOneMovesBytes(g, q[1..], max);
        var (h, kept) := DrainOne(Some(g), q[1..], max);
        Assoc(f.pending, Payload([q[0]]), Payload(q[1..]));
      } else {
        PayloadAppend([back.value], q[1..]);
        Assoc(g.pending, Payload([back.value]), Payload(q[1..]));
        Assoc(f.pending, Payload([q[0]]), Payload(q[1..]));
      }
    }
  }

  /** `pending` ends as the longest prefix of everything offered that fits. */
  lemma DrainOneFillsPending(f: Flow, q: seq<DataIn>, max: nat)
    requires |f.pending| <= max
    ensures var all := f.pending + Payload(q);
            var (g, kept) := DrainOne(Some(f), q, max);
            && g.Some?
            && g.value.pending == all[..Min(max, |all|)]
            && Payload(kept) == all[Min(max, |all|)..]
  {
    DrainOneMovesBytes(f, q, max);
    var (g, kept) := DrainOne(Some(f), q, max);
    var p := g.value.pending;
    assert (p + Payload(kept))[..|p|] == p && (p + Payload(kept))[|p|..] == Payload(kept);
  }

  /** The half-close mark appears exactly when the first `TcpClose` has left the queue. */
  lemma {:induction false} DrainOneOrdersClose(f: Flow, q: seq<DataIn>, max: nat)
    requires |f.pending| <= max
    ensures var (g, kept) := DrainOne(Some(f), q, max);
            && g.Some?
            && (f.halfClosed ==> g.value.halfClosed)
            && (!g.value.halfClosed ==>
                Shift(CloseAt(kept), |g.value.pending|) == Shift(CloseAt(q), |f.pending|))
            && (g.value.halfClosed && !f.halfClosed ==>
                CloseAt(q).Some? && CloseAt(q).value + |f.pending| <= |g.value.pending|)
    decreases |q|
  {
    if q != [] {
      var (g, back) := Offer(f, q[0], max);
      OfferMovesBytes(f, q[0], max);
      if back.None? {
        PendingOnlyGrows(g, q[1..], max);
        DrainOneOrdersClose(g, q[1..], max);
        assert |g.pending| == |f.pending| + |Payload([q[0]])|;
      } else {
        CloseAtAppend([back.value], q[1..]);
        assert |g.pending| + |Payload([back.value])| == |f.pending| + |Payload([q[0]])|;
      }
    }
  }

  /** A pass marks the flow half-closed exactly when a `TcpClose` leaves the queue in it. */
  lemma {:induction false} DrainOneCountsCloses(f: Flow, q: seq<DataIn>, max: nat)
    ensures var (g, kept) := DrainOne(Some(f), q, max);
            && g.Some? && Closes(kept) <= Closes(q)
            && (g.value.halfClosed <==> f.halfClosed || Closes(kept) < Closes(q))
    decreases |q|
  {
    if q != [] {
      var (g, back) := Offer(f, q[0], max);
      if back.None? {
        DrainOneCountsCloses(g, q[1..], max);
      } else {
        assert ([back.value] + q[1..])[1..] == q[1..];
      }
    }
  }

  lemma PendingOnlyGrows(f: Flow, q: seq<DataIn>, max: nat)
    requires |f.pending| <= max
    ensures var (g, kept) := DrainOne(Some(f), q, max); g.Some? && |f.pending| <= |g.value.pending|
  {
    DrainOneFillsPending(f, q, max);
  }

  // ----- What a pass does to the whole queue -----

  /** After a pass every id still queued is a live flow whose `pending` is exactly full. */
  lemma DrainLeavesOnlyFullFlows(t: Tables, q: seq<DataIn>, max: nat, id: nat)
    requires forall i :: i in t.tcp ==> |t.tcp[i].pending| <= max
    ensures var (t', kept) := Drain(t, q, {}, max);
            id in Ids(kept) ==>
              id in t'.tcp && |t'.tcp[id].pending| == max && Of(kept, id) != [] && Of(kept, id)[0].Tcp?
  {
    var (t', kept) := Drain(t, q, {}, max);
    DrainIsIsolated(t, q, {}, max, id);
    OfEmpty(kept, id);
    if id in t.tcp {
      DrainOneMovesBytes(t.tcp[id], Of(q, id), max);
    }
  }

  /** A queue whose every unblocked flow is full at its head does not move. */
  lemma {:induction false} StuckQueueStays(t: Tables, q: seq<DataIn>, blocked: set<nat>, max: nat)
    requires forall id :: id in Ids(q) && id !in blocked ==>
               id in t.tcp && |t.tcp[id].pending| == max && Of(q, id) != [] && Of(q, id)[0].Tcp?
    ensures Drain(t, q, blocked, max) == (t, q)
    decreases |q|
  {
    if q != [] {
      var rest := q[1..];
      assert q[0] in q;
      assert q == [q[0]] + rest;
      forall id | id in Ids(rest) && id !in blocked && id != q[0].id
        ensures id in t.tcp && |t.tcp[id].pending| == max && Of(rest, id) != [] && Of(rest, id)[0].Tcp?
      {
        var d :| d in rest && d.id == id;
        assert d in q;
        assert Of(q, id) == Of(rest, id);
      }
      if q[0].id in blocked {
        StuckQueueStays(t, rest, blocked, max);
      } else {
        assert q[0].id in Ids(q);
        assert Of(q, q[0].id)[0] == q[0];
        assert t.tcp[q[0].id := t.tcp[q[0].id]] == t.tcp;
        StuckQueueStays(t, rest, blocked + {q[0].id}, max);
      }
    }
  }

  /** Draining twice in a row is draining once. */
  lemma DrainIsIdempotent(t: Tables, q: seq<DataIn>, max: nat)
    requires forall i :: i in t.tcp ==> |t.tcp[i].pending| <= max
    ensures var (t', kept) := Drain(t, q, {}, max); Drain(t', kept, {}, max) == (t', kept)
  {
    var (t', kept) := Drain(t, q, {}, max);
    forall id | id in Ids(kept)
      ensures id in t'.tcp && |t'.tcp[id].pending| == max && Of(kept, id) != [] && Of(kept, id)[0].Tcp?
    {
      DrainLeavesOnlyFullFlows(t, q, max, id);
    }
    StuckQueueStays(t', kept, {}, max);
  }

  /** A pass never grows the backlog. */
  lemma {:induction false} DrainShrinks(t: Tables, q: seq<DataIn>, blocked: set<nat>, max: nat)
    ensures var (t', kept) := Drain(t, q, blocked, max);
            Total(kept) <= Total(q) && t'.tcp.Keys == t.tcp.Keys
    decreases |q|
  {
    if q == [] {
    } else if q[0].id in blocked {
      DrainShrinks(t, q[1..], blocked, max);
      TotalAppend([q[0]], Drain(t, q[1..], blocked, max).1);
    } else {
      var (t1, back) := TryHandle(t, q[0], max);
      if back.None? {
        DrainShrinks(t1, q[1..], blocked, max);
      } else {
        DrainShrinks(t1, q[1..], blocked + {q[0].id}, max);
        TotalAppend([back.value], Drain(t1, q[1..], blocked + {q[0].id}, max).1);
      }
    }
  }

  /** What a pass keeps still belongs to flows that were queued before it. */
  lemma {:induction false} DrainKeepsIds(t: Tables, q: seq<DataIn>, blocked: set<nat>, max: nat)
    ensures Ids(Drain(t, q, blocked, max).1) <= Ids(q)
    decreases |q|
  {
    if q != [] {
      var (t1, back) := TryHandle(t, q[0], max);
      DrainKeepsIds(t, q[1..], blocked, max);
      DrainKeepsIds(t1, q[1..], blocked, max);
      DrainKeepsIds(t1, q[1..], blocked + {q[0].id}, max);
      assert Ids(q) == {q[0].id} + Ids(q[1..]) by { IdsCons(q[0], q[1..]); assert q == [q[0]] + q[1..]; }
      IdsCons(q[0], Drain(t, q[1..], blocked, max).1);
      if back.Some? {
        IdsCons(back.value, Drain(t1, q[1..], blocked + {q[0].id}, max).1);
      }
    }
  }

  lemma IdsAppend(a: seq<DataIn>, b: seq<DataIn>)
    ensures Ids(a + b) == Ids(a) + Ids(b)
  {
    forall id | true ensures id in Ids(a + b) <==> id in Ids(a) || id in Ids(b) {
      OfEmpty(a, id);
      OfEmpty(b, id);
      OfEmpty(a + b, id);
      OfAppend(a, b, id);
    }
  }

  lemma IdsSnoc(q: seq<DataIn>, d: DataIn)
    ensures Ids(q + [d]) == Ids(q) + {d.id}
  {
    IdsAppend(q, [d]);
  }

  lemma IdsCons(d: DataIn, q: seq<DataIn>)
    ensures Ids([d] + q) == {d.id} + Ids(q)
  {
    IdsAppend([d], q);
  }
}
