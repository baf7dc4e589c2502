/**
The writer's gate in every reachable state of the process: when a whole round of
the loop in `reserve` lets a waiting write through, and what frees it.
*/
module Gate {
  import opened Common
  import opened FlowState
  import opened Backlog
  import opened World
  import opened Upload
  import L = LocalFlow

  /** One whole round of the loop, with no other step in between. */
  function Round(id: nat): seq<Event> {
    [Write(id, L.TestClosed), Write(id, L.Measure), Write(id, L.TestBudget), Write(id, L.TestDeadline)]
  }

  /** A step of a live flow's writer takes the process from `w` to `w'`. */
  ghost predicate Leads(w: World, s: L.WriterStep, w': World, id: nat, cfg: Config) {
    && id in w.pasts && id in w.writers && id in w'.pasts && id in w'.t.tcp && id in w'.writers
    && Project(w', id) == L.Next(Project(w, id), L.Write(s), id, cfg)
  }

  lemma WriteMoves(w: World, s: L.WriterStep, id: nat, cfg: Config)
    requires Sound(w) && id in w.t.tcp
    ensures Leads(w, s, Step(w, Write(id, s), cfg), id, cfg)
  {
    StepProjects(w, Write(id, s), id, cfg);
  }

  lemma WriteStep(es: seq<Event>, s: L.WriterStep, id: nat, cfg: Config)
    requires id in Run(es, cfg).t.tcp
    ensures Leads(Run(es, cfg), s, Run(es + [Write(id, s)], cfg), id, cfg)
  {
    RunIsSound(es, cfg);
    RunSnoc(es, Write(id, s), cfg);
    WriteMoves(Run(es, cfg), s, id, cfg);
  }

  ghost predicate LeadsBoth(w: World, s: L.WriterStep, t: L.WriterStep, w': World, id: nat, cfg: Config) {
    && id in w.pasts && id in w.writers && id in w'.pasts && id in w'.t.tcp && id in w'.writers
    && Project(w', id) == L.Next(L.Next(Project(w, id), L.Write(s), id, cfg), L.Write(t), id, cfg)
  }

  lemma LeadsTwice(w: World, s: L.WriterStep, m: World, t: L.WriterStep, w': World, id: nat, cfg: Config)
    requires Leads(w, s, m, id, cfg) && Leads(m, t, w', id, cfg)
    ensures LeadsBoth(w, s, t, w', id, cfg)
  {
  }

  lemma RoundLeads(w: World, m: World, w': World, id: nat, cfg: Config)
    requires LeadsBoth(w, L.TestClosed, L.Measure, m, id, cfg)
    requires LeadsBoth(m, L.TestBudget, L.TestDeadline, w', id, cfg)
    ensures Project(w', id) == L.Round(Project(w, id), id, cfg)
  {
  }

  lemma TwoWrites(es: seq<Event>, s: L.WriterStep, t: L.WriterStep, id: nat, cfg: Config)
    requires id in Run(es, cfg).t.tcp
    ensures LeadsBoth(Run(es, cfg), s, t, Run(es + [Write(id, s), Write(id, t)], cfg), id, cfg)
  {
    var e1 := es + [Write(id, s)];
    WriteStep(es, s, id, cfg);
    WriteStep(e1, t, id, cfg);
    assert e1 + [Write(id, t)] == es + [Write(id, s), Write(id, t)];
    LeadsTwice(Run(es, cfg), s, Run(e1, cfg), t, Run(e1 + [Write(id, t)], cfg), id, cfg);
  }

  lemma RoundSplits(es: seq<Event>, id: nat)
    ensures var e2 := es + [Write(id, L.TestClosed), Write(id, L.Measure)];
            es + Round(id) == e2 + [Write(id, L.TestBudget), Write(id, L.TestDeadline)]
  {
  }

  lemma RoundProjects(es: seq<Event>, id: nat, cfg: Config)
    requires id in Run(es, cfg).t.tcp
    ensures var w, w' := Run(es, cfg), Run(es + Round(id), cfg);
            && id in w.pasts && id in w.writers && id in w'.pasts && id in w'.writers
            && Project(w', id) == L.Round(Project(w, id), id, cfg)
  {
    var e2 := es + [Write(id, L.TestClosed), Write(id, L.Measure)];
    TwoWrites(es, L.TestClosed, L.Measure, id, cfg);
    TwoWrites(e2, L.TestBudget, L.TestDeadline, id, cfg);
    RoundSplits(es, id);
    RoundLeads(Run(es, cfg), Run(e2, cfg), Run(es + Round(id), cfg), id, cfg);
  }

  /**
  Admission is exact. From any reachable state in which a live flow's writer is at
  the top of the loop, one uninterrupted round admits the write if and only if
  the flow was reset, or nothing is outstanding, or what is outstanding and the
  write together fit the budget, or the write has waited `CREDIT_WAIT_MAX`.
  Outstanding are the bytes in flight, those of writes given up, and those
  acknowledged since the last pass. A write that is not admitted goes on waiting.
  */
  lemma AdmissionIsExact(es: seq<Event>, id: nat, cfg: Config)
    requires var w := Run(es, cfg);
             id in w.pasts && id in w.t.tcp && id in w.writers && w.writers[id].Checking?
    ensures var w, w' := Run(es, cfg), Run(es + Round(id), cfg);
            var c, past, data := w.t.tcp[id].credit, w.pasts[id], w.writers[id].data;
            && c.acked <= |past.delivered|
            && var x := InFlight(w, id) + past.abandoned + (|past.delivered| - c.acked);
               var fits := x == 0 || x + |data| <= c.cap;
            && id in w'.writers
            && w'.writers[id] == (if past.lost || fits || past.began + L.CREDIT_WAIT_MAX <= w.now
                                  then L.Admitted(data) else w.writers[id])
  {
    RunInv(es, id, cfg);
    RoundProjects(es, id, cfg);
    L.RoundIsExact(Project(Run(es, cfg), id), id, cfg);
    CreditConservation(es, id, cfg);
    if !Run(es, cfg).pasts[id].lost {
      OutstandingIsExact(es, id, cfg);
    }
  }

  /** A pass touches nothing but the flow and its history. */
  lemma PassStep(es: seq<Event>, id: nat, env: Env, cfg: Config)
    requires var w := Run(es, cfg);
             && id in w.pasts && id in w.t.tcp && id in w.writers
             && Enter(w.t.tcp[id], env, w.now).Serve? && Service(w.t.tcp[id], env, w.now, cfg).Kept?
    ensures var w, w' := Run(es, cfg), Run(es + [ServicePass(id, env)], cfg);
            && id in w'.pasts && id in w'.t.tcp && id in w'.writers && w'.writers[id] == w.writers[id]
            && w'.t.tcp[id] == Service(w.t.tcp[id], env, w.now, cfg).flow
            && w'.pasts[id] == L.Logged(w.pasts[id], w.t.tcp[id], env, w.now, cfg)
            && w'.queue == w.queue && w'.chan == w.chan && w'.now == w.now
  {
    RunSnoc(es, ServicePass(id, env), cfg);
    assert Run(es, cfg).chan + [] == Run(es, cfg).chan;
  }

  /** A pass that serves a flow and keeps it moves no byte out of the process and publishes the clamped budget. */
  lemma PassKeepsInFlight(es: seq<Event>, id: nat, env: Env, cfg: Config)
    requires var w := Run(es, cfg);
             && id in w.pasts && id in w.t.tcp && id in w.writers
             && Enter(w.t.tcp[id], env, w.now).Serve? && Service(w.t.tcp[id], env, w.now, cfg).Kept?
             && !Flapping(w.t.tcp[id], env, w.now, cfg)
    ensures var w, w' := Run(es, cfg), Run(es + [ServicePass(id, env)], cfg);
            && id in w'.pasts && id in w'.t.tcp && id in w'.writers && w'.writers[id] == w.writers[id]
            && InFlight(w', id) == InFlight(w, id) && w'.now == w.now
            && w'.pasts[id].abandoned == w.pasts[id].abandoned && w'.pasts[id].began == w.pasts[id].began
            && w'.pasts[id].lost == w.pasts[id].lost
            && w'.t.tcp[id].credit.cap == Max(MIN_FLOW_QUEUE_BYTES, Min(env.budget, Ceiling(cfg)))
  {
    var w := Run(es, cfg);
    PassStep(es, id, env, cfg);
    ServiceMovesBytes(w.t.tcp[id], env, w.now, cfg);
    ServiceMovesClocks(w.t.tcp[id], env, w.now, cfg);
  }

  /**
  The first round after a pass admits a waiting write if and only if the flow was
  reset, nothing is left unacknowledged, what is left and the write fit the budget
  that pass was given, between its bounds, or the write has waited too long.
  */
  lemma AdmittedAfterAPass(es: seq<Event>, id: nat, env: Env, cfg: Config)
    requires var w := Run(es, cfg);
             && id in w.pasts && id in w.t.tcp && id in w.writers && w.writers[id].Checking?
             && Enter(w.t.tcp[id], env, w.now).Serve? && Service(w.t.tcp[id], env, w.now, cfg).Kept?
             && !Flapping(w.t.tcp[id], env, w.now, cfg)
    ensures var w, w' := Run(es, cfg), Run(es + [ServicePass(id, env)] + Round(id), cfg);
            var x, n := InFlight(w, id) + w.pasts[id].abandoned, |w.writers[id].data|;
            && id in w'.writers
            && (w'.writers[id] == L.Admitted(w.writers[id].data) <==>
                  || w.pasts[id].lost
                  || x == 0
                  || x + n <= Max(MIN_FLOW_QUEUE_BYTES, Min(env.budget, Ceiling(cfg)))
                  || w.pasts[id].began + L.CREDIT_WAIT_MAX <= w.now)
  {
    var es' := es + [ServicePass(id, env)];
    PassKeepsInFlight(es, id, env, cfg);
    AdmissionIsExact(es', id, cfg);
    PublishedIsAcknowledged(es, id, env, cfg);
    RunSnoc(es, ServicePass(id, env), cfg);
  }

  lemma AckShrinksInFlight(es: seq<Event>, id: nat, n: nat, cfg: Config)
    requires var w := Run(es, cfg); id in w.pasts && id in w.t.tcp && id in w.writers
    ensures var w, e := Run(es, cfg), Network(id, n, Run(es, cfg).t.tcp[id].sock.state);
            var w' := Run(es + [e], cfg);
            && id in w'.t.tcp && id in w'.pasts && id in w'.writers && w'.writers[id] == w.writers[id]
            && InFlight(w', id) == InFlight(w, id) - Min(n, |w.t.tcp[id].sock.tx|) && w'.now == w.now
            && w'.pasts[id] == w.pasts[id].(delivered := w'.pasts[id].delivered)
            && w'.t.tcp[id].credit == w.t.tcp[id].credit
  {
    RunSnoc(es, Network(id, n, Run(es, cfg).t.tcp[id].sock.state), cfg);
    assert Run(es, cfg).chan + [] == Run(es, cfg).chan;
  }

  /**
  A write waits exactly until enough is acknowledged: when the peer acknowledges
  `n` bytes of the send buffer and a pass follows, the first round after it admits
  the write if and only if the bytes still unacknowledged are none, or leave room
  for it, or the flow was reset, or the deadline is over.
  */
  lemma AcknowledgementAdmits(es: seq<Event>, id: nat, n: nat, env: Env, cfg: Config)
    requires var w := Run(es, cfg);
             id in w.pasts && id in w.t.tcp && id in w.writers && w.writers[id].Checking?
    requires var w := Run(es + [Network(id, n, Run(es, cfg).t.tcp[id].sock.state)], cfg);
             && id in w.t.tcp && Enter(w.t.tcp[id], env, w.now).Serve?
             && Service(w.t.tcp[id], env, w.now, cfg).Kept? && !Flapping(w.t.tcp[id], env, w.now, cfg)
    ensures var w := Run(es, cfg);
            var ack := Network(id, n, w.t.tcp[id].sock.state);
            var w' := Run(es + [ack] + [ServicePass(id, env)] + Round(id), cfg);
            var x := InFlight(w, id) - Min(n, |w.t.tcp[id].sock.tx|) + w.pasts[id].abandoned;
            && id in w'.writers
            && (w'.writers[id] == L.Admitted(w.writers[id].data) <==>
                  || w.pasts[id].lost
                  || x == 0
                  || x + |w.writers[id].data| <= Max(MIN_FLOW_QUEUE_BYTES, Min(env.budget, Ceiling(cfg)))
                  || w.pasts[id].began + L.CREDIT_WAIT_MAX <= w.now)
  {
    AckShrinksInFlight(es, id, n, cfg);
    AdmittedAfterAPass(es + [Network(id, n, Run(es, cfg).t.tcp[id].sock.state)], id, env, cfg);
  }

  // ----- Behind the gate -----

  lemma CommitAndEnqueue(w: World, w': World, id: nat, cfg: Config)
    requires LeadsBoth(w, L.Commit, L.Enqueue, w', id, cfg) && id in w.t.tcp && w.writers[id].Admitted?
    ensures var data, f := w.writers[id].data, w.t.tcp[id];
            && w'.writers[id] == L.Idle && Of(w'.chan, id) == Of(w.chan, id) + [Tcp(id, data)]
            && w'.t.tcp[id] == f.(credit := f.credit.(sent := f.credit.sent + |data|))
  {
    L.SendIsExact(Project(w, id), id, cfg);
  }

  /** An admitted write is counted once, and goes to the end of the channel whole. */
  lemma AdmittedWriteIsSent(es: seq<Event>, id: nat, cfg: Config)
    requires var w := Run(es, cfg); id in w.pasts && id in w.t.tcp && id in w.writers && w.writers[id].Admitted?
    ensures var w, w' := Run(es, cfg), Run(es + [Write(id, L.Commit), Write(id, L.Enqueue)], cfg);
            var data, f := w.writers[id].data, w.t.tcp[id];
            && id in w'.writers && id in w'.t.tcp && w'.writers[id] == L.Idle
            && Of(w'.chan, id) == Of(w.chan, id) + [Tcp(id, data)]
            && w'.t.tcp[id] == f.(credit := f.credit.(sent := f.credit.sent + |data|))
  {
    TwoWrites(es, L.Commit, L.Enqueue, id, cfg);
    CommitAndEnqueue(Run(es, cfg), Run(es + [Write(id, L.Commit), Write(id, L.Enqueue)], cfg), id, cfg);
  }

  lemma GivenUp(w: World, w': World, id: nat, cfg: Config)
    requires Leads(w, L.Abandon, w', id, cfg) && id in w.t.tcp
    requires w.writers[id].Checking? || w.writers[id].Reserved?
    ensures w'.writers[id] == L.Idle && w'.t.tcp[id] == w.t.tcp[id] && Of(w'.chan, id) == Of(w.chan, id)
    ensures w'.pasts[id].abandoned == w.pasts[id].abandoned + L.InHand(w.writers[id])
  {
    L.GiveUpIsExact(Project(w, id), id, cfg);
  }

  /** A write dropped while it waits leaves no trace; one dropped after it was counted stays counted. */
  lemma DroppedWriteSendsNothing(es: seq<Event>, id: nat, cfg: Config)
    requires var w := Run(es, cfg);
             && id in w.pasts && id in w.t.tcp && id in w.writers
             && (w.writers[id].Checking? || w.writers[id].Reserved?)
    ensures var w, w' := Run(es, cfg), Run(es + [Write(id, L.Abandon)], cfg);
            && id in w'.writers && id in w'.t.tcp && id in w'.pasts
            && w'.writers[id] == L.Idle && w'.t.tcp[id] == w.t.tcp[id] && Of(w'.chan, id) == Of(w.chan, id)
            && w'.pasts[id].abandoned == w.pasts[id].abandoned + L.InHand(w.writers[id])
  {
    WriteStep(es, L.Abandon, id, cfg);
    GivenUp(Run(es, cfg), Run(es + [Write(id, L.Abandon)], cfg), id, cfg);
  }

  // ----- Resets -----

  lemma LossStays(w: World, e: Event, id: nat, cfg: Config)
    requires Sound(w) && id in w.pasts && w.pasts[id].lost
    ensures id in Step(w, e, cfg).pasts && Step(w, e, cfg).pasts[id].lost
  {
    StepProjects(w, e, id, cfg);
    L.LostStays(Project(w, id), Localise(w, e, id), id, cfg);
  }

  lemma LostInOneMore(es: seq<Event>, e: Event, id: nat, cfg: Config)
    requires id in Run(es, cfg).pasts && Run(es, cfg).pasts[id].lost
    ensures id in Run(es + [e], cfg).pasts && Run(es + [e], cfg).pasts[id].lost
  {
    RunSnoc(es, e, cfg);
    RunIsSound(es, cfg);
    LossStays(Run(es, cfg), e, id, cfg);
  }

  lemma {:induction false} ResetsAreRemembered(es: seq<Event>, fs: seq<Event>, id: nat, cfg: Config)
    requires id in Run(es, cfg).pasts && Run(es, cfg).pasts[id].lost
    ensures id in Run(es + fs, cfg).pasts && Run(es + fs, cfg).pasts[id].lost
    decreases |fs|
  {
    if fs == [] {
      assert es + fs == es;
    } else {
      var prefix, e := fs[..|fs| - 1], fs[|fs| - 1];
      ResetsAreRemembered(es, prefix, id, cfg);
      LostInOneMore(es + prefix, e, id, cfg);
      assert es + fs == es + prefix + [e];
    }
  }

  lemma ClosedTest(w: World, w': World, id: nat, cfg: Config)
    requires Leads(w, L.TestClosed, w', id, cfg) && w.writers[id].Checking? && id in w.t.tcp
    requires L.Inv(Project(w, id), cfg)
    ensures var d := w.writers[id];
            w'.writers[id] == if w.pasts[id].lost then L.Admitted(d.data) else L.Unclosed(d.data, d.deadline)
  {
  }

  /**
  The test of the `closed` flag admits a waiting write if and only if the flow was
  reset at some point of the run; every other write goes on to be measured.
  */
  lemma ClosedTestIsExact(es: seq<Event>, id: nat, cfg: Config)
    requires var w := Run(es, cfg);
             id in w.pasts && id in w.t.tcp && id in w.writers && w.writers[id].Checking?
    ensures var w, w' := Run(es, cfg), Run(es + [Write(id, L.TestClosed)], cfg);
            var d := w.writers[id];
            && id in w'.writers
            && w'.writers[id] == (if w.pasts[id].lost then L.Admitted(d.data) else L.Unclosed(d.data, d.deadline))
  {
    RunInv(es, id, cfg);
    WriteStep(es, L.TestClosed, id, cfg);
    ClosedTest(Run(es, cfg), Run(es + [Write(id, L.TestClosed)], cfg), id, cfg);
  }

  lemma ReapLoses(w: World, id: nat, cfg: Config)
    requires Sound(w) && id in w.t.tcp && (id in StalledIds(w) || id in WedgedIds(w))
    ensures id in Step(w, ReapPass, cfg).pasts && Step(w, ReapPass, cfg).pasts[id].lost
  {
    assert id in StalledIds(w) ==> ResetAll(w, StalledIds(w)).pasts[id].lost;
  }

  lemma ReapIsRemembered(es: seq<Event>, id: nat, cfg: Config)
    requires var w := Run(es, cfg); id in w.t.tcp && (id in StalledIds(w) || id in WedgedIds(w))
    ensures var w := Run(es + [ReapPass], cfg); id in w.pasts && w.pasts[id].lost
  {
    RunIsSound(es, cfg);
    RunSnoc(es, ReapPass, cfg);
    ReapLoses(Run(es, cfg), id, cfg);
  }

  /**
  A reset frees the writer: whatever happens after a reap has reset a live flow,
  as long as the flow is there, a write waiting at the gate is admitted by its
  very next step.
  */
  lemma ResetReleasesTheWriter(es: seq<Event>, fs: seq<Event>, id: nat, cfg: Config)
    requires var w := Run(es, cfg); id in w.t.tcp && (id in StalledIds(w) || id in WedgedIds(w))
    requires var w := Run(es + [ReapPass] + fs, cfg);
             id in w.pasts && id in w.t.tcp && id in w.writers && w.writers[id].Checking?
    ensures var w := Run(es + [ReapPass] + fs, cfg);
            var w' := Run(es + [ReapPass] + fs + [Write(id, L.TestClosed)], cfg);
            id in w'.writers && w'.writers[id] == L.Admitted(w.writers[id].data)
  {
    ReapIsRemembered(es, id, cfg);
    ResetsAreRemembered(es + [ReapPass], fs, id, cfg);
    ClosedTestIsExact(es + [ReapPass] + fs, id, cfg);
  }
}
