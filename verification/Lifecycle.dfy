/**
How flows begin and end, in every reachable state of the process: the connect
deadline, the half-close, the orphan's linger, and resets.
*/
module Lifecycle {
  import opened Common
  import opened FlowState
  import opened Backlog
  import opened World
  import opened Upload
  import L = LocalFlow

  /** A flow in the table, with its history. */
  ghost predicate Live(w: World, id: nat) { id in w.pasts && id in w.t.tcp }

  /** The flow after a run and one more pass over it, if that pass leaves it in place. */
  function After(es: seq<Event>, id: nat, env: Env, cfg: Config): Option<Flow> {
    Lookup(Run(es + [ServicePass(id, env)], cfg).t.tcp, id)
  }

  lemma PassServes(w: World, id: nat, env: Env, cfg: Config)
    requires Sound(w) && Live(w, id)
    ensures var o := Service(w.t.tcp[id], env, w.now, cfg);
            Lookup(Step(w, ServicePass(id, env), cfg).t.tcp, id) == if o.Kept? then Some(o.flow) else None
  {
  }

  lemma PassAtTheEnd(es: seq<Event>, id: nat, env: Env, cfg: Config)
    requires Live(Run(es, cfg), id)
    ensures var w := Run(es, cfg);
            var o := Service(w.t.tcp[id], env, w.now, cfg);
            After(es, id, env, cfg) == if o.Kept? then Some(o.flow) else None
    ensures Sound(Run(es, cfg)) && L.Inv(Project(Run(es, cfg), id), cfg)
  {
    RunInv(es, id, cfg);
    RunSnoc(es, ServicePass(id, env), cfg);
    PassServes(Run(es, cfg), id, env, cfg);
  }

  /** A new flow gets the next id, and starts with nothing sent, counted, queued or recorded. */
  lemma FlowsAreBornEmpty(es: seq<Event>, cfg: Config)
    ensures var id, w := Run(es, cfg).nextId, Run(es + [Open], cfg);
            && id !in Run(es, cfg).t.tcp && id in w.t.tcp && id in w.pasts && id in w.writers
            && Of(w.queue, id) == [] && Of(w.chan, id) == [] && w.writers[id] == L.Idle
            && (var f, now := w.t.tcp[id], w.now;
                && f.sock == Socket(SynSent, []) && f.pending == [] && f.acceptedTotal == 0
                && !f.established && !f.halfClosed && !f.aborted && f.respWaiting && f.orphanedAt == None
                && f.connectDeadline == now + cfg.connect && f.lastProgress == now
                && f.watch.lastDrain == f.watch.stallMark == now && !f.watch.warned
                && f.watch.ackedHigh == f.watch.stallCount == f.watch.queueHigh == 0
                && f.credit == Credit(0, 0, 48 * 1024, false))
            && (var past := w.pasts[id];
                && past.birth == w.now && past.offered == [] && past.delivered == [] && past.abandoned == 0
                && past.largest == 0 && !past.forced && !past.lost
                && past.passes == [] && past.moves == [] && past.gone == [])
  {
    var w := Run(es, cfg);
    RunIsSound(es, cfg);
    RunSnoc(es, Open, cfg);
    OpenProjects(w, cfg);
  }

  /**
  The history of a live flow is exact: in every reachable state, what any event
  adds to it is what that event does to the flow, as `Recorded` spells out.
  */
  lemma HistoryIsExact(es: seq<Event>, e: Event, id: nat, cfg: Config)
    requires Live(Run(es, cfg), id)
    ensures var w, w' := Run(es, cfg), Run(es + [e], cfg);
            && id in w.writers && id in w'.pasts
            && L.Recorded(Project(w, id), Localise(w, e, id), id, cfg, w'.pasts[id])
  {
    var w := Run(es, cfg);
    RunIsSound(es, cfg);
    RunSnoc(es, e, cfg);
    StepProjects(w, e, id, cfg);
    L.HistoryIsExact(Project(w, id), Localise(w, e, id), id, cfg);
  }

  /**
  The connect phase is exact. A flow that no pass has served and whose socket
  cannot send is removed by a pass if and only if its socket is dead, the app has
  stopped waiting for the answer, or `connect` has passed since it was opened;
  otherwise the pass leaves it as it was.
  */
  lemma ConnectTimeoutIsExact(es: seq<Event>, id: nat, env: Env, cfg: Config)
    requires var w := Run(es, cfg);
             Live(w, id) && w.pasts[id].passes == [] && !w.t.tcp[id].aborted && !w.t.tcp[id].sock.MaySend()
    ensures var w := Run(es, cfg);
            var f := w.t.tcp[id];
            After(es, id, env, cfg) ==
              if || f.sock.state == Closed || f.sock.state == TimeWait
                 || env.respClosed || w.pasts[id].birth + cfg.connect <= w.now
              then None else Some(f)
  {
    PassAtTheEnd(es, id, env, cfg);
  }

  lemma PassIsLogged(w: World, id: nat, env: Env, cfg: Config)
    requires Sound(w) && Live(w, id)
    ensures var w' := Step(w, ServicePass(id, env), cfg);
            && id in w'.pasts
            && |w'.pasts[id].passes| == |w.pasts[id].passes| + if Enter(w.t.tcp[id], env, w.now).Serve? then 1 else 0
  {
  }

  /**
  A pass over a flow that is not aborted is a serving pass if and only if an
  earlier one was or the socket can send.
  */
  lemma ServedOnceConnected(es: seq<Event>, id: nat, env: Env, cfg: Config)
    requires var w := Run(es, cfg); Live(w, id) && !w.t.tcp[id].aborted
    ensures var w, w' := Run(es, cfg), Run(es + [ServicePass(id, env)], cfg);
            && id in w'.pasts
            && (|w'.pasts[id].passes| == |w.pasts[id].passes| + 1 <==>
                  w.pasts[id].passes != [] || w.t.tcp[id].sock.MaySend())
  {
    RunInv(es, id, cfg);
    RunSnoc(es, ServicePass(id, env), cfg);
    PassIsLogged(Run(es, cfg), id, env, cfg);
  }

  /**
  The half-close is exact. A pass over a live flow that can send, with no reset
  before it or in it, leaves the flow able to send if and only if not both some
  `TcpClose` of it has left the queues and the pass takes all that is pending, the
  app is there, and the peer has not closed. In particular a flow that is half-
  closed and drained has left `Established`.
  */
  lemma SendingEndsExactly(es: seq<Event>, id: nat, env: Env, cfg: Config)
    requires var w := Run(es, cfg);
             && Live(w, id) && !w.pasts[id].lost && !w.t.tcp[id].aborted && w.t.tcp[id].sock.MaySend()
             && !Flapping(w.t.tcp[id], env, w.now, cfg)
    ensures var w := Run(es, cfg);
            var f, past, g := w.t.tcp[id], w.pasts[id], After(es, id, env, cfg);
            var closed := Closes(Of(w.queue, id)) + Closes(Of(w.chan, id)) < Closes(past.offered);
            && g.Some?
            && (g.value.sock.MaySend() <==>
                  && !(closed && Taken(f, env, cfg) == |f.pending|)
                  && !env.appGone && f.sock.state != CloseWait)
            && (closed && Taken(f, env, cfg) == |f.pending| ==> g.value.sock.state != Established)
  {
    var w := Run(es, cfg);
    PassAtTheEnd(es, id, env, cfg);
    ClosesAppend(Of(w.queue, id), Of(w.chan, id));
    SendingGoesOnIff(w.t.tcp[id], env, w.now, cfg);
    PassEndsIn(w.t.tcp[id], env, w.now, cfg);
  }

  /**
  The orphan's linger is exact. A serving pass that finds the app gone, and no
  flapping, aborts the flow if and only if there is data nobody will read or the
  first such pass lies `orphanLinger` back; a pass that finds the app there never
  does.
  */
  lemma OrphanLingerIsExact(es: seq<Event>, id: nat, env: Env, cfg: Config)
    requires var w := Run(es, cfg);
             && Live(w, id) && !w.t.tcp[id].aborted
             && (w.pasts[id].passes != [] || w.t.tcp[id].sock.MaySend())
             && !Flapping(w.t.tcp[id], env, w.now, cfg)
    ensures var w := Run(es, cfg);
            var past, g := w.pasts[id], After(es, id, env, cfg);
            g.Some? && g.value.aborted <==>
              && env.appGone
              && (env.canRecv || SatSub(w.now, if past.gone == [] then w.now else past.gone[0]) >= cfg.orphanLinger)
  {
    var w := Run(es, cfg);
    PassAtTheEnd(es, id, env, cfg);
    PassEndsIn(w.t.tcp[id], env, w.now, cfg);
  }

  /** An aborted flow is removed by the next pass over it. */
  lemma AbortedIsRemoved(es: seq<Event>, id: nat, env: Env, cfg: Config)
    requires Live(Run(es, cfg), id) && Run(es, cfg).t.tcp[id].aborted
    ensures After(es, id, env, cfg) == None
  {
    PassAtTheEnd(es, id, env, cfg);
  }

  /**
  A pass never takes away a flow whose socket is neither closed nor in `TimeWait`
  nor still connecting, unless the flow was aborted or is flapping.
  */
  lemma RemovalIsExact(es: seq<Event>, id: nat, env: Env, cfg: Config)
    requires var w := Run(es, cfg);
             && Live(w, id) && !w.t.tcp[id].aborted
             && (w.pasts[id].passes != [] || w.t.tcp[id].sock.MaySend())
             && !Flapping(w.t.tcp[id], env, w.now, cfg)
    ensures var w := Run(es, cfg);
            var f, past := w.t.tcp[id], w.pasts[id];
            var shut := env.appGone || (f.halfClosed && Taken(f, env, cfg) == |f.pending|);
            var lingers := SatSub(w.now, if past.gone == [] then w.now else past.gone[0]) < cfg.orphanLinger;
            After(es, id, env, cfg) == None <==>
              && (f.sock.state == Closed || f.sock.state == TimeWait || (f.sock.state == SynSent && shut))
              && (!env.appGone || (!env.canRecv && lingers))
  {
    var w := Run(es, cfg);
    PassAtTheEnd(es, id, env, cfg);
    PassEndsIn(w.t.tcp[id], env, w.now, cfg);
  }

  /**
  A flap reset takes the flow away at once, unless the same pass aborts it as an
  orphan: then it stays for one more pass with nothing pending, its credit closed
  and its socket closed.
  */
  lemma FlapResetIsFinal(es: seq<Event>, id: nat, env: Env, cfg: Config)
    requires var w := Run(es, cfg); Live(w, id) && Flapping(w.t.tcp[id], env, w.now, cfg)
    ensures var w := Run(es, cfg);
            var past, g := w.pasts[id], After(es, id, env, cfg);
            if && env.appGone
               && (env.canRecv || SatSub(w.now, if past.gone == [] then w.now else past.gone[0]) >= cfg.orphanLinger)
            then
              && g.Some? && g.value.pending == [] && g.value.credit.closed
              && g.value.sock.state == Closed && g.value.aborted
            else g == None
  {
    var w := Run(es, cfg);
    PassAtTheEnd(es, id, env, cfg);
    FlapResetEnds(w.t.tcp[id], env, w.now, cfg);
  }
}
