/**
One TCP flow of the userspace stack: its buffers, its credit, its socket, and
what one iteration of `service_tcp` does to it.

The socket is a state and a send buffer. `send_slice` takes some prefix of what
it is offered, at most the free space; everything the network does to a socket
arrives as a separate step.
*/
module FlowState {
  import opened Common
  import opened Liveness

  const MIN_FLOW_QUEUE_BYTES := 48 * 1024

  /** Device-dependent sizes and the lifetimes of `TcpLimits`. */
  datatype Config = Config(txBuf: nat, connect: nat, orphanLinger: nat)

  function MaxPending(cfg: Config): nat { Max(2 * cfg.txBuf, 64 * 1024) }

  /** Upper end of the per-flow uplink budget. */
  function Ceiling(cfg: Config): nat { Max(cfg.txBuf, MIN_FLOW_QUEUE_BYTES) }

  datatype TcpSt =
    | Closed | SynSent | SynReceived | Established | FinWait1 | FinWait2
    | CloseWait | Closing | LastAck | TimeWait

  datatype Socket = Socket(state: TcpSt, tx: bytes) {
    predicate MaySend() { state == Established || state == CloseWait }

    function Close(): Socket {
      match state
      case SynSent => this.(state := Closed)
      case SynReceived => this.(state := FinWait1)
      case Established => this.(state := FinWait1)
      case CloseWait => this.(state := LastAck)
      case _ => this
    }

    function Abort(): Socket { this.(state := Closed) }
  }

  /** `FlowCredit`: the counters shared by a flow's writer and the stack. */
  datatype Credit = Credit(sent: nat, acked: nat, cap: nat, closed: bool) {
    function Outstanding(): nat { SatSub(sent, acked) }

    function Publish(newAcked: nat, newCap: nat): Credit {
      Credit(sent, if newAcked > acked then newAcked else acked, Max(newCap, MIN_FLOW_QUEUE_BYTES), closed)
    }
  }

  datatype Flow = Flow(
    sock: Socket,
    pending: bytes,
    established: bool,
    halfClosed: bool,
    respWaiting: bool,
    connectDeadline: nat,
    orphanedAt: Option<nat>,
    aborted: bool,
    lastProgress: nat,
    acceptedTotal: nat,
    watch: Watch,
    credit: Credit)

  /** The record `handle_cmd` inserts for a successful `OpenTcp`. */
  function NewFlow(now: nat, cfg: Config): Flow {
    Flow(Socket(SynSent, []), [], false, false, true, now + cfg.connect, None, false, now, 0,
         Fresh(now), Credit(0, 0, MIN_FLOW_QUEUE_BYTES, false))
  }

  /** The outcomes of calls into the socket library, the app channel and the rate estimator during one pass. */
  datatype Env = Env(respClosed: bool, take: nat, budget: nat, appGone: bool, canRecv: bool)

  datatype Outcome = Removed | Kept(flow: Flow)

  /** How a pass begins: the flow is dropped, still connecting, or served. */
  datatype Entry = Drop | Connecting(flow: Flow) | Serve(flow: Flow)

  function Enter(f: Flow, env: Env, now: nat): Entry {
    if f.aborted then Drop
    else
      var f := if !f.established && f.sock.MaySend() then f.(established := true, respWaiting := false) else f;
      if f.established then Serve(f)
      else if f.sock.state == Closed || f.sock.state == TimeWait then Drop
      else if !f.respWaiting || env.respClosed || now >= f.connectDeadline then Drop
      else Connecting(f)
  }

  /** Bytes the socket takes from `pending` on this pass. */
  function Taken(f: Flow, env: Env, cfg: Config): nat {
    if f.sock.MaySend() && |f.sock.tx| < cfg.txBuf
    then Min(env.take, Min(|f.pending|, cfg.txBuf - |f.sock.tx|)) else 0
  }

  function Send(f: Flow, env: Env, now: nat, cfg: Config): Flow {
    if f.pending == [] then f.(lastProgress := now)
    else
      var n := Taken(f, env, cfg);
      if n == 0 then f
      else f.(lastProgress := now,
              acceptedTotal := f.acceptedTotal + n,
              sock := f.sock.(tx := f.sock.tx + f.pending[..n]),
              pending := f.pending[n..])
  }

  /** What the liveness block sees on this pass. */
  function PassOf(f: Flow, now: nat): Pass {
    Pass(now, |f.sock.tx|, SatSub(f.acceptedTotal, |f.sock.tx|))
  }

  /** Liveness and the credit published to the writer. */
  function Account(f: Flow, env: Env, now: nat, cfg: Config): Flow {
    f.(watch := Observe(f.watch, PassOf(f, now)).0,
       credit := f.credit.Publish(PassOf(f, now).acked, Clamp(env.budget, MIN_FLOW_QUEUE_BYTES, Ceiling(cfg))))
  }

  /** Common to the flap reset and both resets of `reap_wedged`. */
  function Reset(f: Flow): Flow {
    f.(pending := [], credit := f.credit.(closed := true), sock := f.sock.Abort())
  }

  function FlapReset(f: Flow): Flow {
    Reset(f).(watch := f.watch.(stallCount := 0, warned := false))
  }

  function HalfClose(f: Flow): Flow {
    if f.halfClosed && f.pending == [] then f.(sock := f.sock.Close()) else f
  }

  /** From the app-gone test to the end of the iteration. */
  function Finish(f: Flow, env: Env, now: nat, cfg: Config): Outcome
    requires f.established
  {
    if env.appGone then
      var at := if f.orphanedAt.Some? then f.orphanedAt.value else now;
      var f := f.(orphanedAt := Some(at));
      if env.canRecv || SatSub(now, at) >= cfg.orphanLinger then
        Kept(f.(sock := f.sock.Abort(), aborted := true))
      else Settle(f.(sock := f.sock.Close()))
    else Settle(f)
  }

  /** Only established flows are served, so the test of that in front of the removal always passes. */
  function Settle(f: Flow): Outcome
    requires f.established
  {
    if f.sock.state == CloseWait then Kept(f.(sock := f.sock.Close()))
    else if f.sock.state == TimeWait || f.sock.state == Closed then Removed
    else Kept(f)
  }

  /** Whether the liveness block asks for a flap reset on this pass. */
  predicate Flapping(f: Flow, env: Env, now: nat, cfg: Config) {
    var e := Enter(f, env, now);
    e.Serve? && Observe(f.watch, PassOf(Send(e.flow, env, now, cfg), now)).1
  }

  /** The served flow just before the half-close test. */
  function Served(f: Flow, env: Env, now: nat, cfg: Config): (g: Flow)
    requires Enter(f, env, now).Serve?
    ensures g.established
  {
    var f1 := Send(Enter(f, env, now).flow, env, now, cfg);
    var f2 := Account(f1, env, now, cfg);
    if Flapping(f, env, now, cfg) then FlapReset(f2) else f2
  }

  /** One iteration of `service_tcp`. */
  function Service(f: Flow, env: Env, now: nat, cfg: Config): Outcome {
    match Enter(f, env, now)
    case Drop => Removed
    case Connecting(g) => Kept(g)
    case Serve(_) => Finish(HalfClose(Served(f, env, now, cfg)), env, now, cfg)
  }

  /** The serving phases before the half-close test, field by field. */
  lemma ServedFields(f: Flow, env: Env, now: nat, cfg: Config)
    requires Enter(f, env, now).Serve?
    ensures var g, n := Served(f, env, now, cfg), Taken(f, env, cfg);
            && g.established
            && g.pending == (if Flapping(f, env, now, cfg) then [] else f.pending[n..])
            && g.sock.tx == f.sock.tx + f.pending[..n]
            && g.sock.state == (if Flapping(f, env, now, cfg) then Closed else f.sock.state)
            && g.acceptedTotal == f.acceptedTotal + n
            && g.halfClosed == f.halfClosed
  {
    var e := Enter(f, env, now).flow;
    assert e.sock == f.sock && e.pending == f.pending;
    assert f.sock.tx + f.pending[..0] == f.sock.tx;
  }

  /** The clocks and counters the serving phases leave behind. */
  lemma ServedClocks(f: Flow, env: Env, now: nat, cfg: Config)
    requires Enter(f, env, now).Serve?
    ensures var g, p := Served(f, env, now, cfg), PassOf(Send(Enter(f, env, now).flow, env, now, cfg), now);
            && p == Pass(now, |g.sock.tx|, SatSub(g.acceptedTotal, |g.sock.tx|))
            && (!Flapping(f, env, now, cfg) ==> g.watch == Observe(f.watch, p).0)
            && g.lastProgress == (if f.pending == [] || Taken(f, env, cfg) > 0 then now else f.lastProgress)
            && g.credit.sent == f.credit.sent
            && g.credit.acked == Max(f.credit.acked, p.acked)
            && g.credit.cap == Max(MIN_FLOW_QUEUE_BYTES, Min(env.budget, Ceiling(cfg)))
  {
    var e := Enter(f, env, now).flow;
    assert e.sock == f.sock && e.pending == f.pending;
  }

  /** From the half-close test on, a kept flow changes only its socket's state, `orphaned_at` and `aborted`. */
  lemma FinishKeeps(g: Flow, env: Env, now: nat, cfg: Config)
    requires g.established
    ensures var o := Finish(HalfClose(g), env, now, cfg);
            o.Kept? ==>
              && o.flow == g.(sock := o.flow.sock, orphanedAt := o.flow.orphanedAt, aborted := o.flow.aborted)
              && o.flow.sock.tx == g.sock.tx
  {
  }

  /** What a whole pass does to the bytes of a flow it serves and keeps. */
  lemma ServiceMovesBytes(f: Flow, env: Env, now: nat, cfg: Config)
    requires Enter(f, env, now).Serve? && Service(f, env, now, cfg).Kept?
    ensures var g, n := Service(f, env, now, cfg).flow, Taken(f, env, cfg);
            && g.pending == (if Flapping(f, env, now, cfg) then [] else f.pending[n..])
            && g.sock.tx == f.sock.tx + f.pending[..n]
            && g.acceptedTotal == f.acceptedTotal + n
            && g.halfClosed == f.halfClosed
  {
    ServedFields(f, env, now, cfg);
    FinishKeeps(Served(f, env, now, cfg), env, now, cfg);
  }

  /** What a whole pass does to the clocks and the credit of a flow it serves and keeps. */
  lemma ServiceMovesClocks(f: Flow, env: Env, now: nat, cfg: Config)
    requires Enter(f, env, now).Serve? && Service(f, env, now, cfg).Kept?
    ensures var g, p := Service(f, env, now, cfg).flow, PassOf(Send(Enter(f, env, now).flow, env, now, cfg), now);
            && (!Flapping(f, env, now, cfg) ==> g.watch == Observe(f.watch, p).0)
            && g.lastProgress == (if f.pending == [] || Taken(f, env, cfg) > 0 then now else f.lastProgress)
            && g.credit.sent == f.credit.sent
            && g.credit.acked == Max(f.credit.acked, p.acked)
            && g.credit.cap == Max(MIN_FLOW_QUEUE_BYTES, Min(env.budget, Ceiling(cfg)))
  {
    ServedFields(f, env, now, cfg);
    ServedClocks(f, env, now, cfg);
    FinishKeeps(Served(f, env, now, cfg), env, now, cfg);
  }

  /** The liveness block sees the socket after this pass has sent. */
  lemma PassSeen(f: Flow, env: Env, now: nat, cfg: Config)
    requires Enter(f, env, now).Serve?
    ensures var g, n := Send(Enter(f, env, now).flow, env, now, cfg), Taken(f, env, cfg);
            && PassOf(g, now) == Pass(now, |f.sock.tx| + n, SatSub(f.acceptedTotal, |f.sock.tx|))
            && g.pending == f.pending[n..]
  {
    ServedFields(f, env, now, cfg);
    ServedClocks(f, env, now, cfg);
  }

  /** A socket that can send takes any prefix of `pending` it has room for, and never more. */
  lemma SocketTakesAnyPrefix(f: Flow, env: Env, cfg: Config, n: nat)
    requires f.sock.MaySend() && |f.sock.tx| <= cfg.txBuf
    ensures Taken(f, env.(take := n), cfg) == n <==> n <= |f.pending| && |f.sock.tx| + n <= cfg.txBuf
    ensures Taken(f, env, cfg) <= |f.pending| && |f.sock.tx| + Taken(f, env, cfg) <= cfg.txBuf
  {
  }

  /**
  How a pass ends, state by state, for a flow whose socket is in `state` when the
  sending is over. `shut` says that the flow's sending side is to be shut. An
  orphan is aborted once it lingers too long or still has data nobody will read,
  and a socket that is done is removed.
  */
  ghost predicate EndsIn(o: Outcome, f: Flow, state: TcpSt, shut: bool, env: Env, now: nat, cfg: Config) {
    var since := if f.orphanedAt.Some? then f.orphanedAt.value else now;
    if env.appGone && (env.canRecv || SatSub(now, since) >= cfg.orphanLinger) then
      o.Kept? && o.flow.sock.state == Closed && o.flow.aborted && o.flow.orphanedAt == Some(since)
    else if state == Closed || state == TimeWait || (state == SynSent && shut) then
      o.Removed?
    else
      && o.Kept? && o.flow.aborted == f.aborted
      && o.flow.orphanedAt == (if env.appGone then Some(since) else f.orphanedAt)
      && o.flow.sock.state == match state
                              case Established => if shut then FinWait1 else Established
                              case SynReceived => if shut then FinWait1 else SynReceived
                              case CloseWait => LastAck
                              case s => s
  }

  /**
  A served pass that is no flap reset shuts the sending side when the app is gone,
  or when the flow is half-closed and the pass took all that was pending.
  */
  lemma PassEndsIn(f: Flow, env: Env, now: nat, cfg: Config)
    requires Enter(f, env, now).Serve? && !Flapping(f, env, now, cfg)
    ensures var shut := env.appGone || (f.halfClosed && Taken(f, env, cfg) == |f.pending|);
            !f.aborted && EndsIn(Service(f, env, now, cfg), f, f.sock.state, shut, env, now, cfg)
  {
    var g := Served(f, env, now, cfg);
    ServedFields(f, env, now, cfg);
    ServedLifetimes(f, env, now, cfg);
    assert g.pending == [] <==> Taken(f, env, cfg) == |f.pending|;
    FinishEndsIn(g, env, now, cfg);
  }

  lemma ServedLifetimes(f: Flow, env: Env, now: nat, cfg: Config)
    requires Enter(f, env, now).Serve?
    ensures var g := Served(f, env, now, cfg);
            && g.orphanedAt == f.orphanedAt && !g.aborted && !f.aborted
            && g.connectDeadline == f.connectDeadline && !g.respWaiting == (!f.respWaiting || !f.established)
  {
  }

  lemma FinishEndsIn(g: Flow, env: Env, now: nat, cfg: Config)
    requires g.established
    ensures var shut := env.appGone || (g.halfClosed && g.pending == []);
            EndsIn(Finish(HalfClose(g), env, now, cfg), g, g.sock.state, shut, env, now, cfg)
  {
    var h := HalfClose(g);
    assert h == g.(sock := h.sock);
    if env.appGone {
      var since := if g.orphanedAt.Some? then g.orphanedAt.value else now;
      SettleEndsIn(h.(orphanedAt := Some(since), sock := h.sock.Close()));
    } else {
      SettleEndsIn(h);
    }
  }

  lemma SettleEndsIn(f: Flow)
    requires f.established
    ensures Settle(f) == if f.sock.state == Closed || f.sock.state == TimeWait then Removed
                         else Kept(f.(sock := if f.sock.state == CloseWait then Socket(LastAck, f.sock.tx) else f.sock))
  {
  }

  /**
  A pass over a flow that can send leaves it able to send if and only if it is not
  a drained half-closed flow, the app is there, and the peer has not closed.
  */
  lemma SendingGoesOnIff(f: Flow, env: Env, now: nat, cfg: Config)
    requires Enter(f, env, now).Serve? && f.sock.MaySend() && !Flapping(f, env, now, cfg)
    ensures var o := Service(f, env, now, cfg);
            && o.Kept?
            && (o.flow.sock.MaySend() <==>
                  && !(f.halfClosed && Taken(f, env, cfg) == |f.pending|)
                  && !env.appGone && f.sock.state != CloseWait)
  {
    PassEndsIn(f, env, now, cfg);
  }

  /** A flap reset, field by field: the flow is gone, or an aborted orphan waits with nothing left in it. */
  lemma FlapResetEnds(f: Flow, env: Env, now: nat, cfg: Config)
    requires Flapping(f, env, now, cfg)
    ensures var o := Service(f, env, now, cfg);
            var since := if f.orphanedAt.Some? then f.orphanedAt.value else now;
            if env.appGone && (env.canRecv || SatSub(now, since) >= cfg.orphanLinger) then
              && o.Kept? && o.flow.pending == [] && o.flow.credit.closed && o.flow.sock.state == Closed
              && o.flow.aborted && o.flow.watch.stallCount == 0 && !o.flow.watch.warned
              && o.flow.halfClosed == f.halfClosed && o.flow.credit.sent == f.credit.sent
            else o.Removed?
  {
    var g := Served(f, env, now, cfg);
    ServedFields(f, env, now, cfg);
    ServedLifetimes(f, env, now, cfg);
    ServedClocks(f, env, now, cfg);
    FinishEndsIn(g, env, now, cfg);
    FinishKeeps(g, env, now, cfg);
  }

  lemma FinishShutsAndKeeps(g: Flow, env: Env, now: nat, cfg: Config)
    requires g.established && g.sock.MaySend()
    ensures var o := Finish(g, env, now, cfg);
            && o.Kept? && o.flow.pending == g.pending
            && (o.flow.sock.MaySend() <==> !env.appGone && g.sock.state != CloseWait)
  {
  }

  /**
  A pass shuts the sending side of a kept flow while bytes are still pending
  exactly when the socket could not take them all and either the app side is
  gone or the peer has already closed its own side.
  */
  lemma TruncationIsExact(f: Flow, env: Env, now: nat, cfg: Config)
    requires Enter(f, env, now).Serve? && f.sock.MaySend()
    ensures var o := Service(f, env, now, cfg);
            o.Kept? && !o.flow.sock.MaySend() && o.flow.pending != [] <==>
            && Taken(f, env, cfg) < |f.pending|
            && !Flapping(f, env, now, cfg)
            && (env.appGone || f.sock.state == CloseWait)
  {
    var g := Served(f, env, now, cfg);
    ServedFields(f, env, now, cfg);
    FinishKeeps(g, env, now, cfg);
    if Flapping(f, env, now, cfg) {
      assert g.pending == [];
    } else if g.pending != [] {
      FinishShutsAndKeeps(g, env, now, cfg);
    }
  }
}
