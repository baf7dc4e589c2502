/**
The life of one flow as a machine of its own: its writer, its messages in the
app channel, its backlog entries, its buffers and its socket. Every invariant of
the upload path is proved here; `World` shows that the shared process projects
onto this machine.
*/
module LocalFlow {
  import opened Common
  import opened Liveness
  import opened FlowState
  import opened Backlog

  const CREDIT_WAIT_MAX := 20_000

  /** Where the flow's one writer is inside `TcpSender::send` and `FlowCredit::reserve`. */
  datatype Writer =
    | Idle
    | Checking(data: bytes, deadline: nat)           // at the top of the loop, or asleep before it
    | Unclosed(data: bytes, deadline: nat)           // `closed` was read false
    | Measured(data: bytes, deadline: nat, out: nat) // `outstanding` was read
    | Refused(data: bytes, deadline: nat)            // the budget was read and is exceeded
    | Admitted(data: bytes)
    | Reserved(data: bytes)

  datatype WriterStep =
    | Begin(data: bytes)
    | TestClosed
    | Measure
    | TestBudget
    | TestDeadline
    | Commit
    | Enqueue
    | Abandon

  /** What has happened to the flow so far; nothing here is read by the stack. */
  datatype Past = Past(
    birth: nat,
    offered: seq<DataIn>,   // every message of this flow ever put into the channel
    delivered: bytes,       // bytes acknowledged by the peer
    abandoned: nat,         // bytes reserved by writes given up before they were queued
    largest: nat,           // the longest single write begun
    forced: bool,           // a write was admitted by `close` or by the deadline
    lost: bool,             // the flow was reset, or its backlog was purged
    began: nat,             // when the latest write began
    gone: seq<nat>,         // the served passes that found the app side gone
    passes: seq<Pass>,      // what each liveness block saw
    moves: seq<(nat, bool)>) // for each served pass: when, and whether pending was empty or shrank

  datatype Local = Local(
    flow: Option<Flow>,
    back: seq<DataIn>,
    chan: seq<DataIn>,
    writer: Writer,
    past: Past,
    now: nat)

  datatype Step =
    | Stutter
    | Advance(dt: nat)
    | Write(w: WriterStep)
    | Message(d: DataIn)             // `close()`, or a datagram that happens to carry this id
    | Ingest
    | DrainPass
    | ServicePass(env: Env)
    | Network(acked: nat, state: TcpSt)
    | ReapPass

  function Birth(now: nat, cfg: Config): Local {
    Local(Some(NewFlow(now, cfg)), [], [], Idle, Past(now, [], [], 0, 0, false, false, now, [], [], []), now)
  }

  /**
  `FlowCredit::reserve` and the channel send, one shared-memory access at a time.
  The app holds a sender only once the flow has connected.
  */
  function WriterNext(l: Local, w: WriterStep, id: nat): Local
    requires l.flow.Some?
  {
    var f := l.flow.value;
    match (w, l.writer)
    case (Begin(data), Idle) =>
      if f.established then
        l.(writer := Checking(data, l.now + CREDIT_WAIT_MAX),
           past := l.past.(largest := Max(l.past.largest, |data|), began := l.now))
      else l
    case (TestClosed, Checking(data, deadline)) =>
      if f.credit.closed then l.(writer := Admitted(data), past := l.past.(forced := true))
      else l.(writer := Unclosed(data, deadline))
    case (Measure, Unclosed(data, deadline)) => l.(writer := Measured(data, deadline, f.credit.Outstanding()))
    case (TestBudget, Measured(data, deadline, out)) =>
      l.(writer := if out == 0 || out + |data| <= f.credit.cap then Admitted(data) else Refused(data, deadline))
    case (TestDeadline, Refused(data, deadline)) =>
      if l.now >= deadline then l.(writer := Admitted(data), past := l.past.(forced := true))
      else l.(writer := Checking(data, deadline))
    case (Commit, Admitted(data)) =>
      l.(writer := Reserved(data), flow := Some(f.(credit := f.credit.(sent := f.credit.sent + |data|))))
    case (Enqueue, Reserved(data)) =>
      l.(writer := Idle, chan := l.chan + [Tcp(id, data)], past := l.past.(offered := l.past.offered + [Tcp(id, data)]))
    case (Abandon, Checking(_, _)) => l.(writer := Idle)
    case (Abandon, Reserved(data)) =>
      l.(writer := Idle, past := l.past.(abandoned := l.past.abandoned + |data|))
    case _ => l
  }

  /** A writer's step touches the queues only by sending, at the channel's end. */
  lemma WriterAppends(l: Local, s: WriterStep, id: nat)
    requires l.flow.Some?
    ensures var l' := WriterNext(l, s, id);
            && l'.back == l.back && l'.now == l.now
            && l'.chan == l.chan + if s.Enqueue? && l.writer.Reserved? then [Tcp(id, l.writer.data)] else []
  {
  }

  /** `ingest` for the message at the head of this flow's share of the channel. */
  function IngestNext(l: Local, max: nat): Local
    requires l.chan != []
  {
    var d, l' := l.chan[0], l.(chan := l.chan[1..]);
    if l.back != [] then l'.(back := l.back + [d])
    else
      var (f, kept) := DrainOne(l.flow, [d], max);
      l'.(flow := f, back := kept)
  }

  function ServiceNext(l: Local, env: Env, cfg: Config): Local
    requires l.flow.Some?
  {
    var f := l.flow.value;
    var o := Service(f, env, l.now, cfg);
    var past := if Enter(f, env, l.now).Serve? then Logged(l.past, f, env, l.now, cfg) else l.past;
    l.(flow := if o.Kept? then Some(o.flow) else None, past := past)
  }

  /** A pass touches no queue, no writer and no clock. */
  lemma ServiceIsQuiet(l: Local, env: Env, cfg: Config)
    requires l.flow.Some?
    ensures var l' := ServiceNext(l, env, cfg); l' == l.(flow := l'.flow, past := l'.past)
  {
  }

  function Logged(past: Past, f: Flow, env: Env, now: nat, cfg: Config): Past
    requires Enter(f, env, now).Serve?
  {
    var g := Send(Enter(f, env, now).flow, env, now, cfg);
    past.(passes := past.passes + [PassOf(g, now)],
          moves := past.moves + [(now, f.pending == [] || |g.pending| < |f.pending|)],
          gone := past.gone + (if env.appGone then [now] else []),
          lost := past.lost || Flapping(f, env, now, cfg))
  }

  /** The network acknowledges a prefix of the send buffer and moves the socket's state. */
  function NetworkNext(l: Local, acked: nat, state: TcpSt): Local
    requires l.flow.Some?
  {
    var f := l.flow.value;
    var n := Min(acked, |f.sock.tx|);
    l.(flow := Some(f.(sock := Socket(state, f.sock.tx[n..]))),
       past := l.past.(delivered := l.past.delivered + f.sock.tx[..n]))
  }

  function ReapNext(l: Local): Local {
    if (l.flow.Some? && Stalled(l.flow.value.watch, l.now)) || (l.back != [] && Wedged(l.flow, l.now)) then
      l.(flow := if l.flow.Some? then Some(Reset(l.flow.value)) else None, back := [],
         past := l.past.(lost := true))
    else l
  }

  function Next(l: Local, s: Step, id: nat, cfg: Config): Local {
    match s
    case Stutter => l
    case Advance(dt) => l.(now := l.now + dt)
    case Write(w) => if l.flow.Some? then WriterNext(l, w, id) else l
    case Message(d) => if d.Tcp? then l else l.(chan := l.chan + [d], past := l.past.(offered := l.past.offered + [d]))
    case Ingest => if l.chan != [] then IngestNext(l, MaxPending(cfg)) else l
    case DrainPass => var (f, kept) := DrainOne(l.flow, l.back, MaxPending(cfg)); l.(flow := f, back := kept)
    case ServicePass(env) => if l.flow.Some? then ServiceNext(l, env, cfg) else l
    case Network(n, state) => if l.flow.Some? then NetworkNext(l, n, state) else l
    case ReapPass => ReapNext(l)
  }

  function Run(l: Local, steps: seq<Step>, id: nat, cfg: Config): Local
    decreases |steps|
  {
    if steps == [] then l else Next(Run(l, steps[..|steps| - 1], id, cfg), steps[|steps| - 1], id, cfg)
  }

  // ----- The invariants -----

  /** Bytes of a write that is counted in `sent` but not yet in the channel. */
  function InHand(w: Writer): nat { if w.Reserved? then |w.data| else 0 }

  /** Everything this flow's writer has put into the channel, in order. */
  function Stream(l: Local): bytes { Payload(l.past.offered) }

  /** The messages of this flow that no buffer holds yet: its backlog, then its channel. */
  function Queued(l: Local): seq<DataIn> { l.back + l.chan }

  /** Bytes handed to the socket so far, acknowledged or not. */
  function Accepted(l: Local): bytes
    requires l.flow.Some?
  {
    l.past.delivered + l.flow.value.sock.tx
  }

  /** Bytes that have left the queues: accepted by the socket, or pending. */
  function Placed(l: Local): bytes
    requires l.flow.Some?
  {
    Accepted(l) + l.flow.value.pending
  }

  /** Stream integrity, and the order of a close against the bytes before it. */
  ghost predicate Intact(l: Local)
    requires l.flow.Some?
  {
    && Stream(l) == Placed(l) + Payload(Queued(l))
    && (if l.flow.value.halfClosed
        then CloseAt(l.past.offered).Some? && CloseAt(l.past.offered).value <= |Placed(l)|
        else CloseAt(l.past.offered) == Shift(CloseAt(Queued(l)), |Placed(l)|))
  }

  /** Even a reset flow never holds more than it was offered, and never more than `max` pending. */
  ghost predicate Bounded(l: Local, cfg: Config)
    requires l.flow.Some?
  {
    && |Placed(l)| + |Payload(Queued(l))| <= |Stream(l)|
    && |l.flow.value.pending| <= MaxPending(cfg)
    && l.flow.value.acceptedTotal == |Accepted(l)|
  }

  ghost predicate StreamInv(l: Local, cfg: Config) {
    l.flow.Some? ==> Bounded(l, cfg) && (!l.past.lost ==> Intact(l))
  }

  /** The most that may be unacknowledged: the budget's ceiling, or one larger write. */
  function Bound(l: Local, cfg: Config): nat { Max(Ceiling(cfg), l.past.largest) }

  /** What `sent` counts, how far `acked` may be, and the admission bound at every point of a write. */
  ghost predicate CreditInv(l: Local, cfg: Config) {
    l.flow.Some? ==>
      var c := l.flow.value.credit;
      && c.sent == |Stream(l)| + l.past.abandoned + InHand(l.writer)
      && c.acked <= |l.past.delivered|
      && MIN_FLOW_QUEUE_BYTES <= c.cap <= Ceiling(cfg)
      && (!l.writer.Idle? ==> |l.writer.data| <= l.past.largest)
      && (!l.past.forced ==>
            && c.Outstanding() <= Bound(l, cfg)
            && (l.writer.Measured? ==> c.Outstanding() <= l.writer.out)
            && (l.writer.Admitted? ==> c.Outstanding() + |l.writer.data| <= Bound(l, cfg)))
  }

  /** `t` is the time of the latest served pass that found `pending` empty or shrank it, else the opening. */
  ghost predicate IsLatestMove(moves: seq<(nat, bool)>, birth: nat, t: nat) {
    || (t == birth && forall i :: 0 <= i < |moves| ==> !moves[i].1)
    || exists k :: 0 <= k < |moves| && moves[k].1 && t == moves[k].0 && forall i :: k < i < |moves| ==> !moves[i].1
  }

  /** Served passes are dated in order, none before the opening and none in the future. */
  ghost predicate Paced(moves: seq<(nat, bool)>, birth: nat, now: nat) {
    && (forall i, j :: 0 <= i < j < |moves| ==> moves[i].0 <= moves[j].0)
    && (forall i :: 0 <= i < |moves| ==> birth <= moves[i].0 <= now)
  }

  /** The log is monotone, and no pass is from the future. */
  ghost predicate Clocked(past: Past, now: nat) {
    && Monotone(past.passes, past.birth)
    && past.birth <= now
    && (past.passes != [] ==>
          var p := past.passes[|past.passes| - 1];
          p.now <= now && p.acked <= |past.delivered|)
  }

  /** The stall and wedge clocks agree with the log of passes. */
  ghost predicate WatchInv(l: Local) {
    && Clocked(l.past, l.now) && Paced(l.past.moves, l.past.birth, l.now)
    && (l.flow.Some? ==>
          && IsLatestMove(l.past.moves, l.past.birth, l.flow.value.lastProgress)
          && (!l.past.lost ==> Tracks(l.flow.value.watch, l.past.passes, l.past.birth)))
  }

  /** The half-close mark says that a `TcpClose` of the flow has left its queues. */
  ghost predicate CloseInv(l: Local) {
    l.flow.Some? && !l.past.lost ==>
      && Closes(Queued(l)) <= Closes(l.past.offered)
      && (l.flow.value.halfClosed <==> Closes(Queued(l)) < Closes(l.past.offered))
  }

  /** What the lifetime fields stand for: when the flow opened, whether it was ever served, orphaned or reset. */
  ghost predicate LifeInv(l: Local, cfg: Config) {
    && (l.flow.Some? ==>
          var f := l.flow.value;
          && f.connectDeadline == l.past.birth + cfg.connect
          && (f.established <==> l.past.passes != []) && (f.respWaiting <==> !f.established)
          && f.orphanedAt == (if l.past.gone == [] then None else Some(l.past.gone[0]))
          && (f.credit.closed <==> l.past.lost))
    && (l.writer.Checking? || l.writer.Unclosed? || l.writer.Measured? || l.writer.Refused? ==>
          l.writer.deadline == l.past.began + CREDIT_WAIT_MAX)
  }

  ghost predicate Inv(l: Local, cfg: Config) {
    StreamInv(l, cfg) && CreditInv(l, cfg) && WatchInv(l) && CloseInv(l) && LifeInv(l, cfg)
  }

  lemma BirthInv(now: nat, cfg: Config)
    ensures Inv(Birth(now, cfg), cfg)
  {
    FreshTracks(now);
  }

  // ----- Stream integrity -----

  /** A message put into the channel is the next one of the stream. */
  lemma SendKeepsStream(l: Local, d: DataIn, l': Local, cfg: Config)
    requires StreamInv(l, cfg)
    requires l' == l.(chan := l.chan + [d], past := l.past.(offered := l.past.offered + [d]), writer := l'.writer)
    ensures Stream(l') == Stream(l) + Payload([d])
    ensures StreamInv(l', cfg)
  {
    PayloadAppend(l.past.offered, [d]);
    if l.flow.Some? {
      assert Queued(l') == Queued(l) + [d];
      PayloadAppend(Queued(l), [d]);
      if !l.past.lost {
        Assoc(Placed(l), Payload(Queued(l)), Payload([d]));
        CloseAtAppend(l.past.offered, [d]);
        CloseAtAppend(Queued(l), [d]);
      }
    }
  }

  /** Entries that leave the queues for `pending` in order keep the stream whole. */
  lemma PlaceKeepsStream(l: Local, l': Local, out: seq<DataIn>, left: seq<DataIn>, rest: seq<DataIn>, cfg: Config)
    requires StreamInv(l, cfg) && l.flow.Some? && l'.flow.Some?
    requires l' == l.(flow := l'.flow, back := l'.back, chan := l'.chan)
    requires Queued(l) == out + rest && Queued(l') == left + rest
    requires DrainOne(l.flow, out, MaxPending(cfg)) == (l'.flow, left)
    ensures StreamInv(l', cfg)
  {
    var f, g, max := l.flow.value, l'.flow.value, MaxPending(cfg);
    DrainOneMovesBytes(f, out, max);
    DrainOneOrdersClose(f, out, max);
    PayloadAppend(out, rest);
    PayloadAppend(left, rest);
    CloseAtAppend(out, rest);
    CloseAtAppend(left, rest);
    Assoc(Accepted(l), f.pending, Payload(out));
    Assoc(Accepted(l), g.pending, Payload(left));
    Assoc(Placed(l), Payload(out), Payload(rest));
    Assoc(Placed(l'), Payload(left), Payload(rest));
    assert |f.pending| + |Payload(out)| == |g.pending| + |Payload(left)| by {
      assert |g.pending + Payload(left)| == |f.pending + Payload(out)|;
    }
  }

  lemma DrainKeepsStream(l: Local, id: nat, cfg: Config)
    requires StreamInv(l, cfg)
    ensures StreamInv(Next(l, DrainPass, id, cfg), cfg)
  {
    if l.flow.Some? {
      var l' := Next(l, DrainPass, id, cfg);
      DrainOneMovesBytes(l.flow.value, l.back, MaxPending(cfg));
      PlaceKeepsStream(l, l', l.back, l'.back, l.chan, cfg);
    }
  }

  lemma IngestKeepsStream(l: Local, id: nat, cfg: Config)
    requires StreamInv(l, cfg)
    ensures StreamInv(Next(l, Step.Ingest, id, cfg), cfg)
  {
    if l.flow.Some? && l.chan != [] {
      var l', d, rest := Next(l, Step.Ingest, id, cfg), l.chan[0], l.chan[1..];
      assert l.chan == [d] + rest;
      if l.back != [] {
        assert Queued(l') == Queued(l);
      } else {
        DrainOneMovesBytes(l.flow.value, [d], MaxPending(cfg));
        assert Queued(l) == [d] + rest;
        PlaceKeepsStream(l, l', [d], l'.back, rest, cfg);
      }
    }
  }

  lemma NetworkKeepsStream(l: Local, acked: nat, state: TcpSt, id: nat, cfg: Config)
    requires StreamInv(l, cfg)
    ensures StreamInv(Next(l, Network(acked, state), id, cfg), cfg)
  {
    if l.flow.Some? {
      var l' := NetworkNext(l, acked, state);
      var tx := l.flow.value.sock.tx;
      var n := Min(acked, |tx|);
      assert tx == tx[..n] + tx[n..];
      Assoc(l.past.delivered, tx[..n], tx[n..]);
      assert Accepted(l') == Accepted(l);
    }
  }

  lemma ReapKeepsStream(l: Local, id: nat, cfg: Config)
    requires StreamInv(l, cfg)
    ensures StreamInv(Next(l, ReapPass, id, cfg), cfg)
  {
    if l.flow.Some? {
      PayloadAppend(l.back, l.chan);
      PayloadAppend([], l.chan);
    }
  }

  /** Handing a prefix of `pending` to the socket keeps the stream whole; a reset only ever drops bytes. */
  lemma HandoverKeepsStream(l: Local, l': Local, n: nat, reset: bool, cfg: Config)
    requires StreamInv(l, cfg) && l.flow.Some? && l'.flow.Some?
    requires n <= |l.flow.value.pending|
    requires l'.back == l.back && l'.chan == l.chan && l'.past.offered == l.past.offered
    requires l'.past.delivered == l.past.delivered && l'.past.lost == (l.past.lost || reset)
    requires var f, g := l.flow.value, l'.flow.value;
             && g.pending == (if reset then [] else f.pending[n..])
             && g.sock.tx == f.sock.tx + f.pending[..n]
             && g.acceptedTotal == f.acceptedTotal + n
             && g.halfClosed == f.halfClosed
    ensures StreamInv(l', cfg)
  {
    var f := l.flow.value;
    assert f.pending == f.pending[..n] + f.pending[n..];
    Assoc(l.past.delivered, f.sock.tx, f.pending[..n]);
    Assoc(Accepted(l), f.pending[..n], f.pending[n..]);
    assert Queued(l') == Queued(l);
  }

  lemma ServiceKeepsStream(l: Local, env: Env, id: nat, cfg: Config)
    requires StreamInv(l, cfg)
    ensures StreamInv(Next(l, ServicePass(env), id, cfg), cfg)
  {
    if l.flow.Some? {
      var f, l' := l.flow.value, ServiceNext(l, env, cfg);
      if Enter(f, env, l.now).Serve? && l'.flow.Some? {
        ServiceMovesBytes(f, env, l.now, cfg);
        HandoverKeepsStream(l, l', Taken(f, env, cfg), Flapping(f, env, l.now, cfg), cfg);
      }
    }
  }

  /**
  When a pass takes all that a half-closed flow, never reset, has pending, every
  byte offered before the flow's first `TcpClose` has been accepted by the socket.
  */
  lemma HalfCloseWaitsForTheStream(l: Local, env: Env, cfg: Config)
    requires StreamInv(l, cfg) && l.flow.Some? && !l.past.lost
    requires l.flow.value.halfClosed && Taken(l.flow.value, env, cfg) == |l.flow.value.pending|
    ensures var f, c := l.flow.value, CloseAt(l.past.offered);
            var accepted := l.past.delivered + (f.sock.tx + f.pending[..Taken(f, env, cfg)]);
            c.Some? && c.value <= |accepted| && accepted <= Stream(l)
  {
    var f := l.flow.value;
    assert f.pending == f.pending[..|f.pending|];
    Assoc(l.past.delivered, f.sock.tx, f.pending);
  }

  // ----- Credit -----

  lemma WriterKeepsCredit(l: Local, w: WriterStep, id: nat, cfg: Config)
    requires StreamInv(l, cfg) && CreditInv(l, cfg)
    ensures CreditInv(Next(l, Write(w), id, cfg), cfg)
  {
    if w.Enqueue? && l.writer.Reserved? {
      PayloadAppend(l.past.offered, [Tcp(id, l.writer.data)]);
      assert Payload([Tcp(id, l.writer.data)]) == l.writer.data;
    }
  }

  lemma MessageKeepsCredit(l: Local, d: DataIn, id: nat, cfg: Config)
    requires CreditInv(l, cfg)
    ensures CreditInv(Next(l, Message(d), id, cfg), cfg)
  {
    PayloadAppend(l.past.offered, [d]);
  }

  lemma QueueStepsKeepCredit(l: Local, s: Step, id: nat, cfg: Config)
    requires s.Ingest? || s.DrainPass?
    requires StreamInv(l, cfg) && CreditInv(l, cfg)
    ensures CreditInv(Next(l, s, id, cfg), cfg)
  {
    if l.flow.Some? {
      DrainOneMovesBytes(l.flow.value, l.back, MaxPending(cfg));
      if l.chan != [] {
        DrainOneMovesBytes(l.flow.value, [l.chan[0]], MaxPending(cfg));
      }
    }
  }

  lemma ServiceKeepsCredit(l: Local, env: Env, id: nat, cfg: Config)
    requires StreamInv(l, cfg) && CreditInv(l, cfg)
    ensures CreditInv(Next(l, ServicePass(env), id, cfg), cfg)
  {
    if l.flow.Some? {
      var f, l' := l.flow.value, ServiceNext(l, env, cfg);
      if Enter(f, env, l.now).Serve? && l'.flow.Some? {
        ServiceMovesClocks(f, env, l.now, cfg);
        PassSeen(f, env, l.now, cfg);
      }
    }
  }

  lemma OtherStepsKeepCredit(l: Local, s: Step, id: nat, cfg: Config)
    requires s.Stutter? || s.Advance? || s.Network? || s.ReapPass?
    requires CreditInv(l, cfg)
    ensures CreditInv(Next(l, s, id, cfg), cfg)
  {
  }

  /** The published `acked` of a flow that stays never moves backwards. */
  lemma AckedGrows(l: Local, s: Step, id: nat, cfg: Config)
    requires StreamInv(l, cfg) && l.flow.Some? && Next(l, s, id, cfg).flow.Some?
    ensures l.flow.value.credit.acked <= Next(l, s, id, cfg).flow.value.credit.acked
  {
    match s
    case ServicePass(env) =>
      if Enter(l.flow.value, env, l.now).Serve? {
        ServiceMovesClocks(l.flow.value, env, l.now, cfg);
      }
    case DrainPass => DrainOneMovesBytes(l.flow.value, l.back, MaxPending(cfg));
    case Ingest =>
      if l.chan != [] {
        DrainOneMovesBytes(l.flow.value, [l.chan[0]], MaxPending(cfg));
      }
    case _ =>
  }

  /** A pass that serves and keeps the flow publishes exactly what the peer has acknowledged. */
  lemma PassPublishes(l: Local, env: Env, cfg: Config)
    requires StreamInv(l, cfg) && CreditInv(l, cfg) && l.flow.Some?
    requires Enter(l.flow.value, env, l.now).Serve? && Service(l.flow.value, env, l.now, cfg).Kept?
    ensures var g := Service(l.flow.value, env, l.now, cfg).flow;
            |g.sock.tx| <= g.acceptedTotal && g.credit.acked == g.acceptedTotal - |g.sock.tx| == |l.past.delivered|
  {
    ServiceMovesBytes(l.flow.value, env, l.now, cfg);
    ServiceMovesClocks(l.flow.value, env, l.now, cfg);
    PassSeen(l.flow.value, env, l.now, cfg);
  }

  /** An ingest takes the head of the flow's share of the channel. */
  lemma IngestTakesOne(l: Local, id: nat, cfg: Config)
    requires l.chan != []
    ensures Next(l, Step.Ingest, id, cfg).chan == l.chan[1..] && Next(l, Step.Ingest, id, cfg) != l
  {
  }

  /** What was forced stays forced, and the longest write is never forgotten. */
  lemma WritesAreRemembered(l: Local, s: Step, id: nat, cfg: Config)
    ensures var p := Next(l, s, id, cfg).past; (l.past.forced ==> p.forced) && l.past.largest <= p.largest
  {
  }

  /** What is pending and what is still queued together fit `pending` with room to spare, unless the gate was forced. */
  lemma RoomForAll(l: Local, cfg: Config)
    requires StreamInv(l, cfg) && CreditInv(l, cfg) && l.flow.Some?
    requires !l.past.forced && l.past.largest < MaxPending(cfg)
    ensures |l.flow.value.pending| + |Payload(Queued(l))| < MaxPending(cfg)
  {
  }

  lemma RoomForTheHead(l: Local, cfg: Config)
    requires StreamInv(l, cfg) && CreditInv(l, cfg) && l.flow.Some? && l.back == [] && l.chan != []
    requires !l.past.forced && l.past.largest < MaxPending(cfg)
    ensures l.chan[0].Tcp? ==> |l.flow.value.pending| + |l.chan[0].data| < MaxPending(cfg)
  {
    RoomForAll(l, cfg);
    assert Queued(l) == l.chan;
  }

  /** Acknowledged bytes are never taken back. */
  lemma DeliveredGrows(l: Local, s: Step, id: nat, cfg: Config)
    ensures l.past.delivered <= Next(l, s, id, cfg).past.delivered
  {
  }

  lemma AbandonedNeverShrinks(l: Local, s: Step, id: nat, cfg: Config)
    ensures l.past.abandoned <= Next(l, s, id, cfg).past.abandoned
  {
  }

  // ----- Clocks -----

  lemma LatestMoveGrows(moves: seq<(nat, bool)>, birth: nat, t: nat, m: (nat, bool))
    requires IsLatestMove(moves, birth, t)
    ensures IsLatestMove(moves + [m], birth, if m.1 then m.0 else t)
  {
    var more := moves + [m];
    assert more[|moves|] == m;
    assert forall i :: 0 <= i < |moves| ==> more[i] == moves[i];
    if !m.1 && exists k :: 0 <= k < |moves| && moves[k].1 {
      var k :| 0 <= k < |moves| && moves[k].1 && t == moves[k].0 && forall i :: k < i < |moves| ==> !moves[i].1;
      assert more[k].1 && t == more[k].0 && forall i :: k < i < |more| ==> !more[i].1;
    }
  }

  /** The latest move is at least `age` old exactly when every move and the opening are. */
  lemma LatestMoveBounds(moves: seq<(nat, bool)>, birth: nat, now: nat, t: nat)
    requires IsLatestMove(moves, birth, t) && Paced(moves, birth, now) && birth <= now
    ensures SatSub(now, t) >= WEDGE_TIMEOUT <==>
            && birth + WEDGE_TIMEOUT <= now
            && forall i :: 0 <= i < |moves| && moves[i].1 ==> moves[i].0 + WEDGE_TIMEOUT <= now
  {
  }

  lemma LogGrows(past: Past, now: nat, p: Pass)
    requires Clocked(past, now) && p.now == now && p.acked == |past.delivered|
    ensures Monotone(past.passes + [p], past.birth)
    ensures Clocked(past.(passes := past.passes + [p]), now)
  {
    var ps, qs := past.passes, past.passes + [p];
    forall i, j | 0 <= i < j < |qs| ensures qs[i].now <= qs[j].now && qs[i].acked <= qs[j].acked {
      if j == |ps| && i < |ps| - 1 {
        assert ps[i].now <= ps[|ps| - 1].now && ps[i].acked <= ps[|ps| - 1].acked;
      }
    }
  }

  /** A served pass adds one entry to each log, and both stay in order. */
  lemma LoggedInOrder(l: Local, env: Env, cfg: Config)
    requires StreamInv(l, cfg) && WatchInv(l) && l.flow.Some?
    requires Enter(l.flow.value, env, l.now).Serve?
    ensures var past, p := Logged(l.past, l.flow.value, env, l.now, cfg),
                           PassOf(Send(Enter(l.flow.value, env, l.now).flow, env, l.now, cfg), l.now);
            && past.passes == l.past.passes + [p] && Monotone(past.passes, past.birth)
            && past.moves == l.past.moves + [(l.now, l.flow.value.pending == [] || Taken(l.flow.value, env, cfg) > 0)]
            && Clocked(past, l.now) && Paced(past.moves, past.birth, l.now)
  {
    PassSeen(l.flow.value, env, l.now, cfg);
    LogGrows(l.past, l.now, PassOf(Send(Enter(l.flow.value, env, l.now).flow, env, l.now, cfg), l.now));
  }

  /** A served pass that keeps the flow keeps its clocks true of the longer log. */
  lemma LoggedKeepsWatch(l: Local, env: Env, cfg: Config)
    requires StreamInv(l, cfg) && WatchInv(l) && l.flow.Some?
    requires Enter(l.flow.value, env, l.now).Serve? && Service(l.flow.value, env, l.now, cfg).Kept?
    ensures var past, g := Logged(l.past, l.flow.value, env, l.now, cfg), Service(l.flow.value, env, l.now, cfg).flow;
            && IsLatestMove(past.moves, past.birth, g.lastProgress)
            && (!past.lost ==> Tracks(g.watch, past.passes, past.birth))
  {
    var f := l.flow.value;
    LoggedInOrder(l, env, cfg);
    ServiceMovesClocks(f, env, l.now, cfg);
    LatestMoveGrows(l.past.moves, l.past.birth, f.lastProgress,
                    (l.now, f.pending == [] || Taken(f, env, cfg) > 0));
    if !l.past.lost && !Flapping(f, env, l.now, cfg) {
      assert Enter(f, env, l.now).flow.watch == f.watch;
      ObserveTracks(f.watch, l.past.passes, l.past.birth,
                    PassOf(Send(Enter(f, env, l.now).flow, env, l.now, cfg), l.now));
    }
  }

  lemma ServiceKeepsWatch(l: Local, env: Env, id: nat, cfg: Config)
    requires StreamInv(l, cfg) && WatchInv(l)
    ensures WatchInv(Next(l, ServicePass(env), id, cfg))
  {
    if l.flow.Some? {
      if Enter(l.flow.value, env, l.now).Serve? {
        LoggedInOrder(l, env, cfg);
        if Service(l.flow.value, env, l.now, cfg).Kept? {
          LoggedKeepsWatch(l, env, cfg);
        }
      }
    }
  }

  lemma DrainOneLeavesClocks(f: Option<Flow>, q: seq<DataIn>, max: nat)
    requires f.Some? ==> |f.value.pending| <= max
    ensures var g := DrainOne(f, q, max).0;
            && g.Some? == f.Some?
            && (f.Some? ==> g.value.watch == f.value.watch && g.value.lastProgress == f.value.lastProgress)
  {
    if f.Some? {
      DrainOneMovesBytes(f.value, q, max);
    }
  }

  /** The fields the clocks live in, for every step but a service pass. */
  lemma OtherStepsLeaveClocks(l: Local, s: Step, id: nat, cfg: Config)
    requires !s.ServicePass? && StreamInv(l, cfg)
    ensures var l' := Next(l, s, id, cfg);
            && l'.flow.Some? == l.flow.Some? && l.now <= l'.now
            && l'.past.birth == l.past.birth && l'.past.passes == l.past.passes && l'.past.moves == l.past.moves
            && |l.past.delivered| <= |l'.past.delivered| && (l.past.lost ==> l'.past.lost)
            && (l.flow.Some? ==> l'.flow.value.watch == l.flow.value.watch
                                 && l'.flow.value.lastProgress == l.flow.value.lastProgress)
  {
    match s
    case Ingest => if l.chan != [] { DrainOneLeavesClocks(l.flow, [l.chan[0]], MaxPending(cfg)); }
    case DrainPass => DrainOneLeavesClocks(l.flow, l.back, MaxPending(cfg));
    case _ =>
  }

  lemma PassesArePast(past: Past, now: nat)
    requires Clocked(past, now)
    ensures forall i :: 0 <= i < |past.passes| ==> past.passes[i].now <= now
  {
  }

  /** The stall selection, read off the log. */
  lemma StallIsExact(l: Local)
    requires WatchInv(l) && l.flow.Some? && !l.past.lost
    ensures var ps := l.past.passes;
            Stalled(l.flow.value.watch, l.now) <==>
              ps != [] && ps[|ps| - 1].queued > 0 && QuietFor(ps, l.past.birth, l.now, DRAIN_STALL_TIMEOUT)
  {
    PassesArePast(l.past, l.now);
    StallResetIsExact(l.flow.value.watch, l.past.passes, l.past.birth, l.now);
  }

  lemma OtherStepsKeepWatch(l: Local, s: Step, id: nat, cfg: Config)
    requires !s.ServicePass?
    requires StreamInv(l, cfg) && WatchInv(l)
    ensures WatchInv(Next(l, s, id, cfg))
  {
    OtherStepsLeaveClocks(l, s, id, cfg);
  }

  // ----- Closing and lifetimes -----

  lemma PlaceKeepsClose(l: Local, l': Local, out: seq<DataIn>, left: seq<DataIn>, rest: seq<DataIn>, max: nat)
    requires CloseInv(l) && l.flow.Some? && l'.flow.Some? && l'.past == l.past
    requires Queued(l) == out + rest && Queued(l') == left + rest && DrainOne(l.flow, out, max) == (l'.flow, left)
    ensures CloseInv(l')
  {
    DrainOneCountsCloses(l.flow.value, out, max);
    ClosesAppend(out, rest);
    ClosesAppend(left, rest);
  }

  lemma SendKeepsClose(l: Local, d: DataIn, l': Local)
    requires CloseInv(l) && l'.flow == l.flow && l'.back == l.back && l'.past.lost == l.past.lost
    requires l'.chan == l.chan + [d] && l'.past.offered == l.past.offered + [d]
    ensures CloseInv(l')
  {
    assert Queued(l') == Queued(l) + [d];
    ClosesAppend(Queued(l), [d]);
    ClosesAppend(l.past.offered, [d]);
  }

  lemma IngestKeepsClose(l: Local, id: nat, cfg: Config)
    requires CloseInv(l)
    ensures CloseInv(Next(l, Step.Ingest, id, cfg))
  {
    if l.flow.Some? && l.chan != [] {
      var l', d, rest := Next(l, Step.Ingest, id, cfg), l.chan[0], l.chan[1..];
      assert l.chan == [d] + rest;
      if l.back != [] {
        assert Queued(l') == Queued(l);
      } else {
        DrainOneCountsCloses(l.flow.value, [d], MaxPending(cfg));
        assert Queued(l) == [d] + rest;
        PlaceKeepsClose(l, l', [d], l'.back, rest, MaxPending(cfg));
      }
    }
  }

  lemma ServiceKeepsClose(l: Local, env: Env, id: nat, cfg: Config)
    requires CloseInv(l)
    ensures CloseInv(Next(l, ServicePass(env), id, cfg))
  {
    if l.flow.Some? && Enter(l.flow.value, env, l.now).Serve? && Service(l.flow.value, env, l.now, cfg).Kept? {
      ServiceMovesBytes(l.flow.value, env, l.now, cfg);
    }
  }

  lemma StepKeepsClose(l: Local, s: Step, id: nat, cfg: Config)
    requires CloseInv(l)
    ensures CloseInv(Next(l, s, id, cfg))
  {
    match s
    case Write(w) =>
      if l.flow.Some? && w.Enqueue? && l.writer.Reserved? {
        SendKeepsClose(l, Tcp(id, l.writer.data), WriterNext(l, w, id));
      }
    case Message(d) => if !d.Tcp? { SendKeepsClose(l, d, Next(l, s, id, cfg)); }
    case Ingest => IngestKeepsClose(l, id, cfg);
    case DrainPass =>
      if l.flow.Some? {
        DrainOneCountsCloses(l.flow.value, l.back, MaxPending(cfg));
        PlaceKeepsClose(l, Next(l, s, id, cfg), l.back, Next(l, s, id, cfg).back, l.chan, MaxPending(cfg));
      }
    case ServicePass(env) => ServiceKeepsClose(l, env, id, cfg);
    case _ =>
  }

  /** What a served pass that keeps a flow does to its lifetime fields. */
  lemma ServedKeepsLife(f: Flow, env: Env, now: nat, cfg: Config)
    requires Enter(f, env, now).Serve? && Service(f, env, now, cfg).Kept?
    ensures var g := Service(f, env, now, cfg).flow;
            && g.established && (f.respWaiting == !f.established ==> !g.respWaiting)
            && g.connectDeadline == f.connectDeadline
            && g.orphanedAt == (if env.appGone && f.orphanedAt.None? then Some(now) else f.orphanedAt)
            && g.credit.closed == (f.credit.closed || Flapping(f, env, now, cfg))
  {
    var g := Served(f, env, now, cfg);
    ServedFields(f, env, now, cfg);
    ServedLifetimes(f, env, now, cfg);
    FinishEndsIn(g, env, now, cfg);
    FinishKeeps(g, env, now, cfg);
  }

  lemma ServiceKeepsLife(l: Local, env: Env, id: nat, cfg: Config)
    requires LifeInv(l, cfg)
    ensures LifeInv(Next(l, ServicePass(env), id, cfg), cfg)
  {
    if l.flow.Some? && Enter(l.flow.value, env, l.now).Serve? && Service(l.flow.value, env, l.now, cfg).Kept? {
      ServedKeepsLife(l.flow.value, env, l.now, cfg);
    }
  }

  lemma WriterKeepsLife(l: Local, w: WriterStep, id: nat, cfg: Config)
    requires l.flow.Some? && LifeInv(l, cfg)
    ensures LifeInv(WriterNext(l, w, id), cfg)
  {
  }

  lemma QueueStepsKeepLife(l: Local, s: Step, id: nat, cfg: Config)
    requires LifeInv(l, cfg) && StreamInv(l, cfg) && (s.Ingest? || s.DrainPass?)
    ensures LifeInv(Next(l, s, id, cfg), cfg)
  {
    if l.flow.Some? {
      DrainOneMovesBytes(l.flow.value, l.back, MaxPending(cfg));
      if l.chan != [] {
        DrainOneMovesBytes(l.flow.value, [l.chan[0]], MaxPending(cfg));
      }
    }
  }

  lemma StepKeepsLife(l: Local, s: Step, id: nat, cfg: Config)
    requires LifeInv(l, cfg) && StreamInv(l, cfg)
    ensures LifeInv(Next(l, s, id, cfg), cfg)
  {
    if l.flow.Some? && s.Write? {
      WriterKeepsLife(l, s.w, id, cfg);
    } else if s.ServicePass? {
      ServiceKeepsLife(l, s.env, id, cfg);
    } else if s.Ingest? || s.DrainPass? {
      QueueStepsKeepLife(l, s, id, cfg);
    }
  }

  /** A reset is never forgotten. */
  lemma LostStays(l: Local, s: Step, id: nat, cfg: Config)
    ensures l.past.lost ==> Next(l, s, id, cfg).past.lost
  {
  }

  /** What each step of a live flow adds to its history, and nothing else does. */
  ghost predicate Recorded(l: Local, s: Step, id: nat, cfg: Config, p: Past)
    requires l.flow.Some?
  {
    var f, q := l.flow.value, l.past;
    && p.birth == q.birth
    && p.offered == q.offered + (if s == Write(Enqueue) && l.writer.Reserved? then [Tcp(id, l.writer.data)]
                                 else if s.Message? && !s.d.Tcp? then [s.d] else [])
    && p.delivered == q.delivered + (if s.Network? then f.sock.tx[..Min(s.acked, |f.sock.tx|)] else [])
    && p.abandoned == q.abandoned + (if s == Write(Abandon) && l.writer.Reserved? then |l.writer.data| else 0)
    && p.largest == (if s.Write? && s.w.Begin? && l.writer.Idle? && f.established
                     then Max(q.largest, |s.w.data|) else q.largest)
    && (p.forced <==> || q.forced
                      || (s == Write(TestClosed) && l.writer.Checking? && f.credit.closed)
                      || (s == Write(TestDeadline) && l.writer.Refused? && l.now >= l.writer.deadline))
    && (p.lost <==> || q.lost
                    || (s.ReapPass? && (Stalled(f.watch, l.now) || (l.back != [] && Wedged(l.flow, l.now))))
                    || (s.ServicePass? && Flapping(f, s.env, l.now, cfg)))
  }

  lemma HistoryIsExact(l: Local, s: Step, id: nat, cfg: Config)
    requires l.flow.Some?
    ensures Recorded(l, s, id, cfg, Next(l, s, id, cfg).past)
  {
    assert l.past.offered + [] == l.past.offered && l.past.delivered + [] == l.past.delivered;
  }

  // ----- The gate -----

  /** One whole round of the loop in `reserve`, with nothing in between. */
  function Round(l: Local, id: nat, cfg: Config): Local {
    var l1 := Next(l, Write(TestClosed), id, cfg);
    var l2 := Next(l1, Write(Measure), id, cfg);
    Next(Next(l2, Write(TestBudget), id, cfg), Write(TestDeadline), id, cfg)
  }

  /** A round admits the write, or leaves it waiting as it was. */
  lemma RoundIsExact(l: Local, id: nat, cfg: Config)
    requires l.flow.Some? && l.writer.Checking?
    ensures var c, n := l.flow.value.credit, |l.writer.data|;
            var fits := c.Outstanding() == 0 || c.Outstanding() + n <= c.cap;
            var late := l.now >= l.writer.deadline;
            Round(l, id, cfg) ==
              l.(writer := if c.closed || fits || late then Admitted(l.writer.data) else l.writer,
                 past := l.past.(forced := l.past.forced || c.closed || (!fits && late)))
  {
  }

  /** Giving up a write that waits or is counted. */
  lemma GiveUpIsExact(l: Local, id: nat, cfg: Config)
    requires l.flow.Some? && (l.writer.Checking? || l.writer.Reserved?)
    ensures Next(l, Write(Abandon), id, cfg) ==
            l.(writer := Idle, past := l.past.(abandoned := l.past.abandoned + InHand(l.writer)))
  {
  }

  /** Counting an admitted write and putting it into the channel. */
  lemma SendIsExact(l: Local, id: nat, cfg: Config)
    requires l.flow.Some? && l.writer.Admitted?
    ensures var f, data := l.flow.value, l.writer.data;
            Next(Next(l, Write(Commit), id, cfg), Write(Enqueue), id, cfg) ==
              l.(writer := Idle, chan := l.chan + [Tcp(id, data)],
                 flow := Some(f.(credit := f.credit.(sent := f.credit.sent + |data|))),
                 past := l.past.(offered := l.past.offered + [Tcp(id, data)]))
  {
  }

  // ----- Whole runs -----

  lemma WriterKeepsStream(l: Local, w: WriterStep, id: nat, cfg: Config)
    requires StreamInv(l, cfg)
    ensures StreamInv(Next(l, Write(w), id, cfg), cfg)
  {
    if l.flow.Some? && w.Enqueue? && l.writer.Reserved? {
      SendKeepsStream(l, Tcp(id, l.writer.data), WriterNext(l, w, id), cfg);
    }
  }

  lemma StepKeepsStream(l: Local, s: Step, id: nat, cfg: Config)
    requires StreamInv(l, cfg)
    ensures StreamInv(Next(l, s, id, cfg), cfg)
  {
    match s
    case Write(w) => WriterKeepsStream(l, w, id, cfg);
    case Message(d) =>
      if !d.Tcp? {
        SendKeepsStream(l, d, Next(l, s, id, cfg), cfg);
      }
    case Ingest => IngestKeepsStream(l, id, cfg);
    case DrainPass => DrainKeepsStream(l, id, cfg);
    case ServicePass(env) => ServiceKeepsStream(l, env, id, cfg);
    case Network(n, st) => NetworkKeepsStream(l, n, st, id, cfg);
    case ReapPass => ReapKeepsStream(l, id, cfg);
    case _ =>
  }

  lemma StepKeepsInv(l: Local, s: Step, id: nat, cfg: Config)
    requires Inv(l, cfg)
    ensures Inv(Next(l, s, id, cfg), cfg)
  {
    StepKeepsStream(l, s, id, cfg);
    StepKeepsClose(l, s, id, cfg);
    StepKeepsLife(l, s, id, cfg);
    match s {
      case Write(w) => WriterKeepsCredit(l, w, id, cfg);
      case Message(d) => MessageKeepsCredit(l, d, id, cfg);
      case ServicePass(env) => ServiceKeepsCredit(l, env, id, cfg);
      case Ingest => QueueStepsKeepCredit(l, s, id, cfg);
      case DrainPass => QueueStepsKeepCredit(l, s, id, cfg);
      case _ => OtherStepsKeepCredit(l, s, id, cfg);
    }
    if s.ServicePass? {
      ServiceKeepsWatch(l, s.env, id, cfg);
    } else {
      OtherStepsKeepWatch(l, s, id, cfg);
    }
  }

  /** Every state of every run of a flow satisfies every invariant. */
  lemma {:induction false} RunKeepsInv(l: Local, steps: seq<Step>, id: nat, cfg: Config)
    requires Inv(l, cfg)
    ensures Inv(Run(l, steps, id, cfg), cfg)
    decreases |steps|
  {
    if steps != [] {
      var prefix := steps[..|steps| - 1];
      RunKeepsInv(l, prefix, id, cfg);
      StepKeepsInv(Run(l, prefix, id, cfg), steps[|steps| - 1], id, cfg);
    }
  }
}
