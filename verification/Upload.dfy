/** What holds of the upload path in every reachable state of the process, flow by flow. */
module Upload {
  import opened Common
  import opened Liveness
  import opened FlowState
  import opened Backlog
  import opened World
  import L = LocalFlow

  // ----- Every run -----

  lemma {:induction false} RunIsSound(es: seq<Event>, cfg: Config)
    ensures Sound(Run(es, cfg))
    decreases |es|
  {
    if es != [] {
      var prefix := es[..|es| - 1];
      RunIsSound(prefix, cfg);
      StepKeepsSound(Run(prefix, cfg), es[|es| - 1], cfg);
    }
  }

  /** A flow is born with nothing of its id anywhere. */
  lemma OpenProjects(w: World, cfg: Config)
    requires Sound(w)
    ensures Project(Step(w, Open, cfg), w.nextId) == L.Birth(w.now, cfg)
  {
    OfEmpty(w.queue, w.nextId);
    OfEmpty(w.chan, w.nextId);
    assert w.chan + [] == w.chan;
    forall d | d in w.queue || d in w.chan ensures d.id != w.nextId {}
  }

  /** Only `Open` creates a flow, and it creates the one numbered `next_id`. */
  lemma NewFlowsAreOpened(w: World, e: Event, cfg: Config, id: nat)
    requires Sound(w) && id !in w.pasts && id in Step(w, e, cfg).pasts
    ensures e.Open? && id == w.nextId
  {
  }

  /** The private steps a run amounts to for one flow, from its birth on. */
  ghost function Share(es: seq<Event>, id: nat, cfg: Config): seq<L.Step>
    decreases |es|
  {
    if es == [] then []
    else
      var prefix := es[..|es| - 1];
      var w := Run(prefix, cfg);
      if id in w.pasts then Share(prefix, id, cfg) + [Localise(w, es[|es| - 1], id)] else []
  }

  /**
  Isolation over whole runs: a flow's share of the process after any run is its
  private machine run on its own steps. The one way other flows reach it is by
  filling the shared memory bound, which delays its next message; `Isolation`
  says exactly when that happens and what follows when it does not.
  */
  lemma {:induction false} RunProjects(es: seq<Event>, id: nat, cfg: Config)
    requires id in Run(es, cfg).pasts
    ensures Sound(Run(es, cfg))
    ensures var w := Run(es, cfg);
            Project(w, id) == L.Run(L.Birth(w.pasts[id].birth, cfg), Share(es, id, cfg), id, cfg)
    decreases |es|
  {
    RunIsSound(es, cfg);
    var prefix, e := es[..|es| - 1], es[|es| - 1];
    var w := Run(prefix, cfg);
    RunIsSound(prefix, cfg);
    if id in w.pasts {
      RunProjects(prefix, id, cfg);
      StepProjects(w, e, id, cfg);
      BirthIsFixed(Project(w, id), Localise(w, e, id), id, cfg);
      var share := Share(es, id, cfg);
      assert share[..|share| - 1] == Share(prefix, id, cfg);
    } else {
      NewFlowsAreOpened(w, e, cfg, id);
      OpenProjects(w, cfg);
    }
  }

  lemma BirthIsFixed(l: L.Local, s: L.Step, id: nat, cfg: Config)
    ensures L.Next(l, s, id, cfg).past.birth == l.past.birth
  {
  }

  /**
  Two runs that give a flow the same birth and the same private steps, a message
  held back being no step, leave it in the same state.
  */
  lemma OtherFlowsCannotReach(es: seq<Event>, fs: seq<Event>, id: nat, cfg: Config)
    requires id in Run(es, cfg).pasts && id in Run(fs, cfg).pasts
    requires Run(es, cfg).pasts[id].birth == Run(fs, cfg).pasts[id].birth
    requires Share(es, id, cfg) == Share(fs, id, cfg)
    ensures id in Run(es, cfg).writers && id in Run(fs, cfg).writers
    ensures Project(Run(es, cfg), id) == Project(Run(fs, cfg), id)
  {
    RunProjects(es, id, cfg);
    RunProjects(fs, id, cfg);
  }

  lemma RunInv(es: seq<Event>, id: nat, cfg: Config)
    requires id in Run(es, cfg).pasts
    ensures Sound(Run(es, cfg)) && L.Inv(Project(Run(es, cfg), id), cfg)
  {
    RunProjects(es, id, cfg);
    var birth := Run(es, cfg).pasts[id].birth;
    L.BirthInv(birth, cfg);
    L.RunKeepsInv(L.Birth(birth, cfg), Share(es, id, cfg), id, cfg);
  }

  // ----- Stream integrity -----

  /**
  In every reachable state, for every live flow never reset: the bytes its writer
  offered are, in order and without loss or repetition, those the peer has
  acknowledged, those in the socket, those pending, those in the backlog and
  those in the channel.
  */
  lemma StreamIntegrity(es: seq<Event>, id: nat, cfg: Config)
    requires var w := Run(es, cfg); id in w.pasts && id in w.t.tcp && !w.pasts[id].lost
    ensures var w := Run(es, cfg);
            var f, past := w.t.tcp[id], w.pasts[id];
            Payload(past.offered) ==
              past.delivered + f.sock.tx + f.pending + Payload(Of(w.queue, id)) + Payload(Of(w.chan, id))
  {
    RunInv(es, id, cfg);
    var l := Project(Run(es, cfg), id);
    PayloadAppend(l.back, l.chan);
    Assoc(L.Placed(l), Payload(l.back), Payload(l.chan));
  }

  /**
  Whenever a service pass, and not a departed app or a reset, takes the socket of
  a flow out of `Established`, the flow has a `TcpClose` and every byte offered
  before its first one is already in the socket or acknowledged.
  */
  lemma HalfCloseIsSafe(es: seq<Event>, id: nat, env: Env, cfg: Config)
    requires var w := Run(es, cfg); id in w.pasts && id in w.t.tcp && !w.pasts[id].lost
    requires var w := Run(es, cfg);
             var f := w.t.tcp[id];
             && f.sock.state == Established && !f.aborted && !env.appGone && !Flapping(f, env, w.now, cfg)
             && !(Service(f, env, w.now, cfg).Kept? && Service(f, env, w.now, cfg).flow.sock.state == Established)
    ensures var w := Run(es, cfg);
            var o, c := Service(w.t.tcp[id], env, w.now, cfg), CloseAt(w.pasts[id].offered);
            && o.Kept? && c.Some?
            && var accepted := w.pasts[id].delivered + o.flow.sock.tx;
               c.value <= |accepted| && accepted <= Payload(w.pasts[id].offered)
  {
    var w := Run(es, cfg);
    RunInv(es, id, cfg);
    PassEndsIn(w.t.tcp[id], env, w.now, cfg);
    ServiceMovesBytes(w.t.tcp[id], env, w.now, cfg);
    L.HalfCloseWaitsForTheStream(Project(w, id), env, cfg);
  }

  // ----- Credit -----

  /**
  Credit conservation: `sent` is exactly the bytes given up, the bytes of the
  write in hand, and the bytes in the channel, the backlog, `pending` and the
  socket's running total; so `acked` never exceeds `sent` and the subtraction in
  `outstanding` never saturates.
  */
  lemma CreditConservation(es: seq<Event>, id: nat, cfg: Config)
    requires var w := Run(es, cfg); id in w.pasts && id in w.t.tcp
    ensures var w := Run(es, cfg);
            var f, past := w.t.tcp[id], w.pasts[id];
            && id in w.writers
            && f.acceptedTotal == |past.delivered| + |f.sock.tx|
            && f.credit.acked <= |past.delivered| <= f.acceptedTotal <= f.credit.sent
            && f.credit.Outstanding() == f.credit.sent - f.credit.acked
            && (!past.lost ==>
                  f.credit.sent == past.abandoned + L.InHand(w.writers[id]) + |Payload(Of(w.chan, id))|
                                   + |Payload(Of(w.queue, id))| + |f.pending| + f.acceptedTotal)
  {
    RunInv(es, id, cfg);
    var l := Project(Run(es, cfg), id);
    PayloadAppend(l.back, l.chan);
  }

  lemma RunSnoc(es: seq<Event>, e: Event, cfg: Config)
    ensures Run(es + [e], cfg) == Step(Run(es, cfg), e, cfg)
  {
    assert (es + [e])[..|es|] == es;
  }

  /**
  What `publish` is given, `accepted_total - send_queue`, never goes backwards by
  itself: in every reachable state of a live flow it is exactly the bytes the
  peer has acknowledged, and no step of any kind takes one of those back.
  */
  lemma AckedNeverDecreases(es: seq<Event>, e: Event, id: nat, cfg: Config)
    requires var w := Run(es, cfg); id in w.pasts && id in w.t.tcp && id in Step(w, e, cfg).t.tcp
    ensures var w, w' := Run(es, cfg), Step(Run(es, cfg), e, cfg);
            var f, f' := w.t.tcp[id], w'.t.tcp[id];
            && id in w'.pasts && w.pasts[id].delivered <= w'.pasts[id].delivered
            && |f.sock.tx| <= f.acceptedTotal && |f'.sock.tx| <= f'.acceptedTotal
            && f.acceptedTotal - |f.sock.tx| <= f'.acceptedTotal - |f'.sock.tx|
            && f.credit.acked <= f'.credit.acked
  {
    var w := Run(es, cfg);
    RunInv(es, id, cfg);
    StepProjects(w, e, id, cfg);
    L.AckedGrows(Project(w, id), Localise(w, e, id), id, cfg);
    L.DeliveredGrows(Project(w, id), Localise(w, e, id), id, cfg);
    RunSnoc(es, e, cfg);
    RunInv(es + [e], id, cfg);
  }

  /**
  The clamp in `publish` never acts: right after a pass that serves a flow and
  keeps it, the published `acked` is `accepted_total - send_queue`, which is the
  number of bytes the peer has acknowledged.
  */
  lemma PublishedIsAcknowledged(es: seq<Event>, id: nat, env: Env, cfg: Config)
    requires var w := Run(es, cfg);
             && id in w.pasts && id in w.t.tcp
             && Enter(w.t.tcp[id], env, w.now).Serve? && Service(w.t.tcp[id], env, w.now, cfg).Kept?
    ensures var w := Step(Run(es, cfg), ServicePass(id, env), cfg);
            && id in w.t.tcp && id in w.pasts
            && |w.t.tcp[id].sock.tx| <= w.t.tcp[id].acceptedTotal
            && w.t.tcp[id].credit.acked == w.t.tcp[id].acceptedTotal - |w.t.tcp[id].sock.tx|
                                        == |w.pasts[id].delivered|
  {
    RunInv(es, id, cfg);
    PassPublishes(Run(es, cfg), id, env, cfg);
  }

  lemma PassPublishes(w: World, id: nat, env: Env, cfg: Config)
    requires Sound(w) && id in w.pasts && id in w.t.tcp && L.Inv(Project(w, id), cfg)
    requires Enter(w.t.tcp[id], env, w.now).Serve? && Service(w.t.tcp[id], env, w.now, cfg).Kept?
    ensures var w' := Step(w, ServicePass(id, env), cfg);
            && id in w'.t.tcp && id in w'.pasts
            && |w'.t.tcp[id].sock.tx| <= w'.t.tcp[id].acceptedTotal
            && w'.t.tcp[id].credit.acked == w'.t.tcp[id].acceptedTotal - |w'.t.tcp[id].sock.tx|
                                         == |w'.pasts[id].delivered|
  {
    L.PassPublishes(Project(w, id), env, cfg);
  }

  /**
  Admission bound under every interleaving of the writer with the stack: unless a
  write was let through by `close` or by the deadline, the bytes unacknowledged
  inside the process never exceed the budget's ceiling or, if larger, the longest
  single write.
  */
  lemma AdmissionBound(es: seq<Event>, id: nat, cfg: Config)
    requires var w := Run(es, cfg); id in w.pasts && id in w.t.tcp && !w.pasts[id].forced
    ensures var w := Run(es, cfg);
            w.t.tcp[id].credit.Outstanding() <= Max(Max(cfg.txBuf, MIN_FLOW_QUEUE_BYTES), w.pasts[id].largest)
  {
    RunInv(es, id, cfg);
  }

  /** The bytes of a flow inside the process: in the channel, the backlog, `pending`, or the socket unacknowledged. */
  function InFlight(w: World, id: nat): nat
    requires id in w.t.tcp
  {
    |Payload(Of(w.chan, id))| + |Payload(Of(w.queue, id))| + |w.t.tcp[id].pending| + |w.t.tcp[id].sock.tx|
  }

  /**
  What `outstanding` counts, exactly, for a live flow never reset: the bytes in
  flight, those of the write in hand, those of writes given up after they were
  counted, and those acknowledged since the last pass. It is the bytes in flight
  if and only if there are none of the other three.
  */
  lemma OutstandingIsExact(es: seq<Event>, id: nat, cfg: Config)
    requires var w := Run(es, cfg); id in w.pasts && id in w.t.tcp && !w.pasts[id].lost
    ensures var w := Run(es, cfg);
            var c, past := w.t.tcp[id].credit, w.pasts[id];
            && id in w.writers && c.acked <= |past.delivered|
            && c.Outstanding() == InFlight(w, id) + past.abandoned + L.InHand(w.writers[id])
                                  + (|past.delivered| - c.acked)
            && (c.Outstanding() == InFlight(w, id) <==>
                  past.abandoned == 0 && L.InHand(w.writers[id]) == 0 && c.acked == |past.delivered|)
  {
    CreditConservation(es, id, cfg);
  }

  lemma {:induction false} AbandonedGrows(es: seq<Event>, fs: seq<Event>, id: nat, cfg: Config)
    requires id in Run(es, cfg).pasts
    ensures id in Run(es + fs, cfg).pasts
    ensures Run(es, cfg).pasts[id].abandoned <= Run(es + fs, cfg).pasts[id].abandoned
    decreases |fs|
  {
    if fs == [] {
      assert es + fs == es;
    } else {
      var prefix, e := fs[..|fs| - 1], fs[|fs| - 1];
      AbandonedGrows(es, prefix, id, cfg);
      AbandonedInOneMore(es + prefix, e, id, cfg);
      assert es + fs == (es + prefix) + [e];
    }
  }

  lemma AbandonedInOneMore(es: seq<Event>, e: Event, id: nat, cfg: Config)
    requires id in Run(es, cfg).pasts
    ensures id in Run(es + [e], cfg).pasts
    ensures Run(es, cfg).pasts[id].abandoned <= Run(es + [e], cfg).pasts[id].abandoned
  {
    var w := Run(es, cfg);
    RunSnoc(es, e, cfg);
    RunIsSound(es, cfg);
    StepProjects(w, e, id, cfg);
    L.AbandonedNeverShrinks(Project(w, id), Localise(w, e, id), id, cfg);
  }

  /**
  A write given up after its bytes were counted is never acknowledged: for the
  rest of every run `outstanding` stays at least that large, so the empty-pipe
  exception of the gate is closed to the flow for good.
  */
  lemma AbandonedBytesStayOutstanding(es: seq<Event>, fs: seq<Event>, id: nat, cfg: Config)
    requires id in Run(es, cfg).pasts && id in Run(es + fs, cfg).t.tcp
    ensures Run(es, cfg).pasts[id].abandoned <= Run(es + fs, cfg).t.tcp[id].credit.Outstanding()
  {
    AbandonedGrows(es, fs, id, cfg);
    RunInv(es + fs, id, cfg);
  }

  // ----- Liveness -----

  /**
  Exact stall detection in every reachable state: `reap_wedged` selects a flow as
  stalled if and only if its latest pass left bytes unacknowledged and neither
  its opening nor any pass that found the queue empty or acknowledged bytes at a
  new maximum lies within the last eight seconds.
  */
  lemma StallDetectionIsExact(es: seq<Event>, id: nat, cfg: Config)
    requires var w := Run(es, cfg); id in w.pasts && id in w.t.tcp && !w.pasts[id].lost
    ensures var w := Run(es, cfg);
            var ps := w.pasts[id].passes;
            id in StalledIds(w) <==>
              ps != [] && ps[|ps| - 1].queued > 0
              && QuietFor(ps, w.pasts[id].birth, w.now, DRAIN_STALL_TIMEOUT)
  {
    RunInv(es, id, cfg);
    L.StallIsExact(Project(Run(es, cfg), id));
  }

  /**
  Exact flap detection in every reachable state: a service pass resets a flow for
  flapping if and only if that pass starts a stall less than the flap window
  after the previous stall started.
  */
  lemma FlapDetectionIsExact(es: seq<Event>, id: nat, env: Env, cfg: Config)
    requires var w := Run(es, cfg); id in w.pasts && id in w.t.tcp && !w.pasts[id].lost
    requires Enter(Run(es, cfg).t.tcp[id], env, Run(es, cfg).now).Serve?
    ensures var w := Run(es, cfg);
            var f, past := w.t.tcp[id], w.pasts[id];
            var p := PassOf(Send(Enter(f, env, w.now).flow, env, w.now, cfg), w.now);
            Flapping(f, env, w.now, cfg) <==>
            exists j :: 0 <= j < |past.passes| && Flaps(past.passes + [p], past.birth, j, |past.passes|)
  {
    RunInv(es, id, cfg);
    var w := Run(es, cfg);
    var f, past := w.t.tcp[id], w.pasts[id];
    var p := PassOf(Send(Enter(f, env, w.now).flow, env, w.now, cfg), w.now);
    PassSeen(f, env, w.now, cfg);
    L.LogGrows(past, w.now, p);
    FlapResetIsExact(f.watch, past.passes, past.birth, p);
    assert Enter(f, env, w.now).flow.watch == f.watch;
  }

  /**
  Exact wedge detection: a flow with entries queued is selected as wedged if and
  only if no served pass of the last thirty seconds, nor its opening, found its
  `pending` empty or moved any of it.
  */
  lemma WedgeDetectionIsExact(es: seq<Event>, id: nat, cfg: Config)
    requires var w := Run(es, cfg); id in w.pasts && id in w.t.tcp
    ensures var w := Run(es, cfg);
            var moves := w.pasts[id].moves;
            id in WedgedIds(w) <==>
              && Of(w.queue, id) != []
              && w.pasts[id].birth + WEDGE_TIMEOUT <= w.now
              && forall i :: 0 <= i < |moves| && moves[i].1 ==> moves[i].0 + WEDGE_TIMEOUT <= w.now
  {
    RunInv(es, id, cfg);
    var w := Run(es, cfg);
    OfEmpty(w.queue, id);
    L.LatestMoveBounds(w.pasts[id].moves, w.pasts[id].birth, w.now, w.t.tcp[id].lastProgress);
  }

  /**
  A reap resets exactly the flows it selects, purges exactly their entries, and
  leaves every other flow and its entries as they were.
  */
  lemma ReapIsExact(es: seq<Event>, id: nat, cfg: Config)
    requires var w := Run(es, cfg); id in w.pasts && id in w.t.tcp
    ensures var w := Run(es, cfg);
            var w' := Reap(w);
            && id in w'.t.tcp
            && (if id in StalledIds(w) || id in WedgedIds(w)
                then
                  var f := w.t.tcp[id];
                  && Of(w'.queue, id) == []
                  && w'.t.tcp[id] == f.(pending := [], credit := f.credit.(closed := true),
                                        sock := Socket(Closed, f.sock.tx))
                else w'.t.tcp[id] == w.t.tcp[id] && Of(w'.queue, id) == Of(w.queue, id))
  {
    RunIsSound(es, cfg);
    ReapSelects(Run(es, cfg), id, cfg);
  }

  // ----- Backlog -----

  /**
  In every reachable state the backlog's fields are exact and bounded, and every
  flow's `pending` is within its limit; right after a drain only live flows with
  `pending` exactly full are blocked, and draining again changes nothing.
  */
  lemma BacklogIsExactAndBounded(es: seq<Event>, cfg: Config)
    ensures var w := Run(es, cfg);
            && w.blocked == Ids(w.queue) && w.bytes == Total(w.queue)
            && w.bytes < MAX_BACKLOG_BYTES + w.biggest
            && (forall id :: id in w.t.tcp ==> |w.t.tcp[id].pending| <= Max(2 * cfg.txBuf, 64 * 1024))
    ensures var w := Step(Run(es, cfg), DrainPass, cfg);
            && (forall id :: id in w.blocked ==> id in w.t.tcp && |w.t.tcp[id].pending| == MaxPending(cfg))
            && Step(w, DrainPass, cfg) == w
  {
    RunIsSound(es, cfg);
    var w := Run(es, cfg);
    forall id | id in w.t.tcp ensures |w.t.tcp[id].pending| <= MaxPending(cfg) {
      RunInv(es, id, cfg);
    }
    var w' := DrainAll(w, cfg);
    forall id | id in w'.blocked ensures id in w'.t.tcp && |w'.t.tcp[id].pending| == MaxPending(cfg) {
      DrainLeavesOnlyFullFlows(w.t, w.queue, MaxPending(cfg), id);
    }
    DrainIsIdempotent(w.t, w.queue, MaxPending(cfg));
  }
}
