/** The device's outbound queue: gated where the stack sends, ungated where it answers, shed only at a hard ceiling. */
module Device {
  import opened Common

  const MAX_DEVICE_TX := 64
  const MAX_DEVICE_TX_HARD := 256

  type Packet = bytes

  datatype SendResult = Sent | Full | Gone

  /** The sending half of the bounded channel to the tunnel's writer. */
  class Outbound {
    var sent: seq<Packet>
    var room: nat
    var open: bool

    method TrySend(p: Packet) returns (r: SendResult)
      modifies this`sent, this`room
      ensures r == if !open then Gone else if old(room) == 0 then Full else Sent
      ensures r == Sent ==> sent == old(sent) + [p] && room == old(room) - 1
      ensures r != Sent ==> sent == old(sent) && room == old(room)
    {
      if !open {
        return Gone;
      }
      if room == 0 {
        return Full;
      }
      sent, room := sent + [p], room - 1;
      return SendResult.Sent;
    }
  }

  /** How one flush splits the queue: what goes out, what is shed, what stays. */
  datatype Split = Split(out: seq<Packet>, shed: seq<Packet>, kept: seq<Packet>)

  function Flush(q: seq<Packet>, room: nat): Split {
    var n := Min(room, |q|);
    var excess := Max(0, |q| - n - MAX_DEVICE_TX_HARD);
    Split(q[..n], q[n..n + excess], q[n + excess..])
  }

  /** Nothing is lost, repeated or reordered; what stays fits the ceiling; shedding happens only above it. */
  lemma FlushSplits(q: seq<Packet>, room: nat)
    ensures var s := Flush(q, room);
            && s.out + s.shed + s.kept == q
            && |s.out| <= room && |s.kept| <= MAX_DEVICE_TX_HARD
            && (s.shed != [] ==> |s.kept| == MAX_DEVICE_TX_HARD && |s.out| == room)
            && (s.kept != [] ==> |s.out| == room)
  {
  }

  // ----- Whole runs -----

  /** The device's outbound side with its history: what was queued, sent, shed, and lost to a closed channel. */
  datatype Line = Line(
    tx: seq<Packet>,
    queued: seq<Packet>,
    wire: seq<Packet>,
    shed: seq<Packet>,
    lost: seq<Packet>,
    answers: nat)

  datatype Event =
    | Send(p: Packet)     // the stack asks for a transmit token and, if it gets one, uses it
    | Answer(p: Packet)   // a reply sent with the token that came with an inbound packet
    | FlushAll(room: nat) // one pass with an open channel
    | FlushClosed         // one pass with a closed one

  function Next(l: Line, e: Event): Line {
    match e
    case Send(p) => if |l.tx| < MAX_DEVICE_TX then l.(tx := l.tx + [p], queued := l.queued + [p]) else l
    case Answer(p) => l.(tx := l.tx + [p], queued := l.queued + [p], answers := l.answers + 1)
    case FlushAll(room) =>
      var s := Flush(l.tx, room);
      l.(tx := s.kept, wire := l.wire + s.out, shed := l.shed + s.shed)
    case FlushClosed => if l.tx == [] then l else l.(tx := l.tx[1..], lost := l.lost + [l.tx[0]])
  }

  function Run(es: seq<Event>): Line
    decreases |es|
  {
    if es == [] then Line([], [], [], [], [], 0) else Next(Run(es[..|es| - 1]), es[|es| - 1])
  }

  lemma RunSnoc(es: seq<Event>, e: Event)
    ensures Run(es + [e]) == Next(Run(es), e)
  {
    assert (es + [e])[..|es|] == es;
  }

  // ----- Subsequences -----

  /** `a` is what is left of `b` after some of its elements are taken out. */
  ghost predicate Within(a: seq<Packet>, b: seq<Packet>)
    decreases |b|
  {
    || a == []
    || (b != [] && (|| (a[|a| - 1] == b[|b| - 1] && Within(a[..|a| - 1], b[..|b| - 1]))
                    || Within(a, b[..|b| - 1])))
  }

  lemma WithinSnoc(a: seq<Packet>, b: seq<Packet>, p: Packet)
    requires Within(a, b)
    ensures Within(a + [p], b + [p])
  {
    assert (a + [p])[..|a|] == a && (b + [p])[..|b|] == b;
  }

  lemma {:induction false} WithinItself(a: seq<Packet>)
    ensures Within(a, a)
    decreases |a|
  {
    if a != [] {
      WithinItself(a[..|a| - 1]);
    }
  }

  lemma {:induction false} WithinLonger(a: seq<Packet>, b: seq<Packet>)
    ensures Within(a, a + b)
    decreases |b|
  {
    if b == [] {
      WithinItself(a);
      assert a + b == a;
    } else {
      WithinLonger(a, b[..|b| - 1]);
      assert (a + b)[..|a + b| - 1] == a + b[..|b| - 1];
    }
  }

  /** Taking a stretch out of the middle. */
  lemma {:induction false} WithoutMiddle(a: seq<Packet>, b: seq<Packet>, c: seq<Packet>)
    ensures Within(a + c, a + b + c)
    decreases |c|
  {
    if c == [] {
      WithinLonger(a, b);
      assert a + c == a && a + b + c == a + b;
    } else {
      var n := |c| - 1;
      WithoutMiddle(a, b, c[..n]);
      WithinSnoc(a + c[..n], a + b + c[..n], c[n]);
      assert a + c[..n] + [c[n]] == a + c && a + b + c[..n] + [c[n]] == a + b + c;
    }
  }

  lemma {:induction false} WithinChains(a: seq<Packet>, b: seq<Packet>, c: seq<Packet>)
    requires Within(a, b) && Within(b, c)
    ensures Within(a, c)
    decreases |c|
  {
    if a != [] {
      var d := c[..|c| - 1];
      if Within(b, d) {
        WithinChains(a, b, d);
      } else if a[|a| - 1] == b[|b| - 1] && Within(a[..|a| - 1], b[..|b| - 1]) {
        WithinChains(a[..|a| - 1], b[..|b| - 1], d);
      } else {
        WithinChains(a, b[..|b| - 1], d);
      }
    }
  }

  // ----- What every run keeps -----

  ghost predicate Accounted(l: Line) {
    multiset(l.queued) == multiset(l.wire) + multiset(l.shed) + multiset(l.lost) + multiset(l.tx)
  }

  ghost predicate Orderly(l: Line) {
    && |l.tx| <= MAX_DEVICE_TX + l.answers
    && (l.answers <= MAX_DEVICE_TX_HARD - MAX_DEVICE_TX ==> l.shed == [])
    && Within(l.wire + l.tx, l.queued)
  }

  lemma FlushCounts(q: seq<Packet>, room: nat)
    ensures var s := Flush(q, room); multiset(q) == multiset(s.out) + multiset(s.shed) + multiset(s.kept)
  {
    var s := Flush(q, room);
    FlushSplits(q, room);
    assert multiset(s.out + s.shed + s.kept) == multiset(s.out) + multiset(s.shed) + multiset(s.kept);
  }

  lemma StepKeepsAccounts(l: Line, e: Event)
    requires Accounted(l)
    ensures Accounted(Next(l, e))
  {
    if e.FlushAll? {
      FlushCounts(l.tx, e.room);
    } else if e.FlushClosed? && l.tx != [] {
      assert l.tx == [l.tx[0]] + l.tx[1..];
    }
  }

  lemma FlushKeepsOrder(l: Line, room: nat)
    requires Within(l.wire + l.tx, l.queued)
    ensures var s := Flush(l.tx, room); Within((l.wire + s.out) + s.kept, l.queued)
  {
    var s := Flush(l.tx, room);
    FlushSplits(l.tx, room);
    WithoutMiddle(l.wire + s.out, s.shed, s.kept);
    Grouped(l.wire, s.out, s.shed, s.kept);
    WithinChains((l.wire + s.out) + s.kept, l.wire + l.tx, l.queued);
  }

  lemma LossKeepsOrder(l: Line)
    requires Within(l.wire + l.tx, l.queued) && l.tx != []
    ensures Within(l.wire + l.tx[1..], l.queued)
  {
    WithoutMiddle(l.wire, [l.tx[0]], l.tx[1..]);
    assert l.wire + [l.tx[0]] + l.tx[1..] == l.wire + l.tx;
    WithinChains(l.wire + l.tx[1..], l.wire + l.tx, l.queued);
  }

  lemma StepKeepsOrder(l: Line, e: Event)
    requires Orderly(l)
    ensures Orderly(Next(l, e))
  {
    match e
    case FlushAll(room) =>
      FlushSplits(l.tx, room);
      FlushKeepsOrder(l, room);
      assert l.shed + [] == l.shed;
    case FlushClosed => if l.tx != [] { LossKeepsOrder(l); }
    case Send(p) =>
      Assoc(l.wire, l.tx, [p]);
      WithinSnoc(l.wire + l.tx, l.queued, p);
    case Answer(p) =>
      Assoc(l.wire, l.tx, [p]);
      WithinSnoc(l.wire + l.tx, l.queued, p);
  }

  /**
  Over any run every packet queued is on the wire, shed, lost to a closed
  channel, or still queued; the queue exceeds the gate by at most the answers
  sent; what has been and will be sent is the queued packets in their order,
  whatever was taken out; and until more answers are sent than fit between the
  gate and the ceiling, nothing is shed.
  */
  lemma {:induction false} LineConserves(es: seq<Event>)
    ensures Accounted(Run(es)) && Orderly(Run(es)) && Run(es).answers == Answers(es)
    decreases |es|
  {
    if es != [] {
      var l, e := Run(es[..|es| - 1]), es[|es| - 1];
      LineConserves(es[..|es| - 1]);
      StepKeepsAccounts(l, e);
      StepKeepsOrder(l, e);
    }
  }

  function Answers(es: seq<Event>): nat
    decreases |es|
  {
    if es == [] then 0 else Answers(es[..|es| - 1]) + if es[|es| - 1].Answer? then 1 else 0
  }

  lemma {:induction false} NoAnswers(es: seq<Event>)
    requires forall e :: e in es ==> !e.Answer?
    ensures Answers(es) == 0
    decreases |es|
  {
    if es != [] {
      NoAnswers(es[..|es| - 1]);
    }
  }

  /** A flush that sheds nothing only moves packets from the queue to the wire. */
  lemma FlushMoves(l: Line, room: nat)
    requires Flush(l.tx, room).shed == []
    ensures var s := Flush(l.tx, room); (l.wire + s.out) + s.kept == l.wire + l.tx
  {
    var s := Flush(l.tx, room);
    FlushSplits(l.tx, room);
    assert s.out + [] == s.out;
    Assoc(l.wire, s.out, s.kept);
  }

  lemma StepTakesNothingOut(l: Line, e: Event)
    requires Next(l, e).shed == [] && Next(l, e).lost == []
    ensures l.shed == [] && l.lost == []
    ensures l.queued == l.wire + l.tx ==> Next(l, e).queued == Next(l, e).wire + Next(l, e).tx
  {
    match e
    case FlushAll(room) => FlushMoves(l, room);
    case FlushClosed =>
    case Send(p) => Assoc(l.wire, l.tx, [p]);
    case Answer(p) => Assoc(l.wire, l.tx, [p]);
  }

  /** Without shedding and loss the wire and the queue are everything queued. */
  lemma {:induction false} NothingTakenOut(es: seq<Event>)
    requires Run(es).shed == [] && Run(es).lost == []
    ensures Run(es).queued == Run(es).wire + Run(es).tx
    decreases |es|
  {
    if es != [] {
      StepTakesNothingOut(Run(es[..|es| - 1]), es[|es| - 1]);
      NothingTakenOut(es[..|es| - 1]);
    }
  }

  /** A run that queues only through `transmit` stays within the gate and never sheds. */
  lemma GatedRunsNeverShed(es: seq<Event>)
    requires forall e :: e in es ==> !e.Answer?
    ensures |Run(es).tx| <= MAX_DEVICE_TX && Run(es).shed == []
    ensures Run(es).lost == [] ==> Run(es).queued == Run(es).wire + Run(es).tx
  {
    NoAnswers(es);
    LineConserves(es);
    if Run(es).lost == [] {
      NothingTakenOut(es);
    }
  }

  /** A packet that was gated, queued and never refused is lost when the next pass finds the channel closed. */
  lemma ClosedFlushLosesOne(p: Packet)
    ensures var l := Run([Send(p), FlushClosed]); l.queued == [p] && l.wire == [] && l.tx == [] && l.lost == [p]
  {
    RunSnoc([], Send(p));
    RunSnoc([Send(p)], FlushClosed);
    assert [] + [Send(p)] == [Send(p)] && [Send(p)] + [FlushClosed] == [Send(p), FlushClosed];
  }

  // ----- The device -----

  /**
  The device the stack drives. `events` and the two packet histories are what has
  happened to it; the queues and the shed counter are exactly what they amount to.
  */
  class StackDevice {
    var rx: seq<Packet>
    var tx: seq<Packet>
    var txStalls: nat
    var txShed: nat
    var txPeak: nat
    ghost var events: seq<Event>
    ghost var arrived: seq<Packet>
    ghost var received: seq<Packet>

    ghost predicate Valid()
      reads this
    {
      tx == Run(events).tx && txShed == |Run(events).shed| && arrived == received + rx
    }

    constructor ()
      ensures Valid() && rx == [] && tx == [] && txStalls == 0 && txShed == 0 && txPeak == 0 && events == []
    {
      rx, tx, txStalls, txShed, txPeak := [], [], 0, 0, 0;
      events, arrived, received := [], [], [];
    }

    /** Whatever the device has been through, its queue is bounded by its answers and keeps its order. */
    lemma Conserves()
      requires Valid()
      ensures |tx| <= MAX_DEVICE_TX + Answers(events)
      ensures Within(Run(events).wire + tx, Run(events).queued)
      ensures multiset(Run(events).queued)
           == multiset(Run(events).wire) + multiset(Run(events).shed) + multiset(Run(events).lost) + multiset(tx)
    {
      LineConserves(events);
    }

    /** An inbound packet joins the end of the receive queue. */
    method Arrive(p: Packet)
      requires Valid()
      modifies this`rx, this`arrived
      ensures Valid() && rx == old(rx) + [p] && arrived == old(arrived) + [p]
    {
      rx := rx + [p];
      arrived := arrived + [p];
      Assoc(received, old(rx), [p]);
    }

    /** A token to send with, refused when the queue is at the gate. */
    method Transmit() returns (granted: bool)
      modifies this`txStalls
      ensures granted <==> |tx| < MAX_DEVICE_TX
      ensures txStalls == old(txStalls) + if granted then 0 else 1
    {
      if |tx| >= MAX_DEVICE_TX {
        txStalls := txStalls + 1;
        return false;
      }
      return true;
    }

    /** Using either kind of token. */
    method Consume(p: Packet)
      modifies this`tx
      ensures tx == old(tx) + [p]
    {
      tx := tx + [p];
    }

    /** The stack sends: it asks for a token and uses it if it gets one, which never takes the queue past the gate. */
    method Dispatch(p: Packet) returns (sent: bool)
      requires Valid()
      modifies this`tx, this`txStalls, this`events
      ensures Valid() && events == old(events) + [Send(p)]
      ensures sent <==> |old(tx)| < MAX_DEVICE_TX
      ensures |tx| <= Max(|old(tx)|, MAX_DEVICE_TX)
      ensures Run(events).queued == Run(old(events)).queued + if sent then [p] else []
      ensures txStalls == old(txStalls) + if sent then 0 else 1
    {
      ghost var l := Run(events);
      RunSnoc(events, Send(p));
      sent := Transmit();
      if sent {
        Consume(p);
      } else {
        assert l.queued + [] == l.queued;
      }
      events := events + [Send(p)];
    }

    /**
    The stack takes the next inbound packet and may answer it with the token that
    comes with it. Packets are taken in the order they arrived; an answer is
    queued however full the queue is.
    */
    method Exchange(answer: Option<Packet>) returns (p: Option<Packet>)
      requires Valid()
      modifies this`rx, this`tx, this`events, this`received
      ensures Valid()
      ensures p.None? <==> old(received) == arrived
      ensures p.Some? ==> received == old(received) + [p.value] && received <= arrived
      ensures events == old(events) + if p.Some? && answer.Some? then [Answer(answer.value)] else []
      ensures p.Some? && answer.Some? ==> Run(events).queued == Run(old(events)).queued + [answer.value]
    {
      p := Receive();
      if p.Some? {
        received := received + [p.value];
        assert arrived == received + rx;
        if answer.Some? {
          RunSnoc(events, Answer(answer.value));
          Consume(answer.value);
          events := events + [Answer(answer.value)];
        }
      }
    }

    /** The packet at the front of the receive queue. */
    method Receive() returns (p: Option<Packet>)
      modifies this`rx
      ensures if old(rx) == [] then p == None && rx == [] else p == Some(old(rx)[0]) && rx == old(rx)[1..]
    {
      if rx == [] {
        return None;
      }
      p := Some(rx[0]);
      rx := rx[1..];
    }

    /** Drops the oldest packets down to the ceiling. */
    method ShedExcess() returns (dropped: nat)
      requires |tx| > MAX_DEVICE_TX_HARD
      modifies this`tx, this`txShed
      ensures dropped == |old(tx)| - MAX_DEVICE_TX_HARD
      ensures tx == old(tx)[dropped..] && txShed == old(txShed) + dropped
    {
      dropped := 0;
      var excess := |tx| - MAX_DEVICE_TX_HARD;
      for k := 0 to excess
        invariant dropped == k && tx == old(tx)[k..] && txShed == old(txShed)
      {
        tx := tx[1..];
        dropped := dropped + 1;
      }
      txShed := txShed + dropped;
    }

    /** Sends from the front until the queue is empty or the channel refuses; a packet refused for room goes back. */
    method SendQueued(outbound: Outbound) returns (retained: bool)
      modifies this`tx, outbound`sent, outbound`room
      ensures outbound.open ==>
                var n := Min(old(outbound.room), |old(tx)|);
                && outbound.sent == old(outbound.sent) + old(tx)[..n] && outbound.room == old(outbound.room) - n
                && tx == old(tx)[n..] && (retained <==> n < |old(tx)|)
      ensures !outbound.open ==>
                && outbound.sent == old(outbound.sent) && outbound.room == old(outbound.room) && !retained
                && tx == if old(tx) == [] then [] else old(tx)[1..]
    {
      ghost var q, n := tx, 0;
      while tx != []
        invariant n <= |q| && tx == q[n..]
        invariant outbound.sent == old(outbound.sent) + q[..n] && outbound.room == old(outbound.room) - n
        invariant n > 0 ==> outbound.open
        decreases |tx|
      {
        var pkt := tx[0];
        tx := tx[1..];
        var r := outbound.TrySend(pkt);
        match r {
          case Sent =>
            assert q[..n + 1] == q[..n] + [pkt];
            n := n + 1;
          case Full =>
            tx := [pkt] + tx;
            assert tx == q[n..];
            return true;
          case Gone => return false;
        }
      }
      assert q[..n] == q;
      return false;
    }

    method FlushTx(outbound: Outbound) returns (dropped: nat, retained: bool)
      modifies this`tx, this`txShed, this`txPeak, outbound`sent, outbound`room
      ensures outbound.open ==>
                var s := Flush(old(tx), old(outbound.room));
                && outbound.sent == old(outbound.sent) + s.out
                && tx == s.kept && dropped == |s.shed| && txShed == old(txShed) + |s.shed|
                && (retained <==> |s.out| < |old(tx)|)
      ensures !outbound.open ==>
                && outbound.sent == old(outbound.sent) && dropped == 0 && !retained && txShed == old(txShed)
                && tx == if old(tx) == [] then [] else old(tx)[1..]
      ensures txPeak == Max(old(txPeak), |old(tx)|)
    {
      dropped := 0;
      if |tx| > txPeak {
        txPeak := |tx|;
      }
      retained := SendQueued(outbound);
      if retained && |tx| > MAX_DEVICE_TX_HARD {
        dropped := ShedExcess();
      }
    }

    /** One pass of the loop over the device: what goes into the channel is what the line puts on the wire. */
    method Pass(outbound: Outbound) returns (dropped: nat, retained: bool)
      requires Valid()
      modifies this`tx, this`txShed, this`txPeak, this`events, outbound`sent, outbound`room
      ensures Valid()
      ensures events == old(events) + [if outbound.open then FlushAll(old(outbound.room)) else FlushClosed]
      ensures |Run(old(events)).shed| + dropped == |Run(events).shed|
      ensures exists out :: outbound.sent == old(outbound.sent) + out && Run(events).wire == Run(old(events)).wire + out
    {
      ghost var e := if outbound.open then FlushAll(outbound.room) else FlushClosed;
      ghost var l := Run(events);
      ghost var out := if outbound.open then Flush(tx, outbound.room).out else [];
      RunSnoc(events, e);
      dropped, retained := FlushTx(outbound);
      events := events + [e];
      assert l.wire + [] == l.wire && old(outbound.sent) + [] == old(outbound.sent);
      assert outbound.sent == old(outbound.sent) + out && Run(events).wire == l.wire + out;
    }
  }
}
