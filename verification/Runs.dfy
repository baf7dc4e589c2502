/**
Every run of the private machine of a flow is a run of the process, and short
runs that reach the states the exact conditions of `FlowState`, `Upload` and
`Isolation` speak of.
*/
module Runs {
  import opened Common
  import opened FlowState
  import opened Backlog
  import opened World
  import opened Upload
  import opened Isolation
  import L = LocalFlow

  // ----- Steps made by the process -----

  /** What a flow can do on its own: send only its own messages, and ingest only below the memory bound. */
  predicate Possible(l: L.Local, s: L.Step, id: nat) {
    match s
    case Message(d) => d.id == id && !d.Tcp?
    case Ingest => Total(l.back) < MAX_BACKLOG_BYTES
    case _ => true
  }

  /** The event that makes a step of a flow. */
  function Enact(s: L.Step, id: nat): Event {
    match s
    case Stutter => Advance(0)
    case Advance(dt) => Advance(dt)
    case Write(w) => Write(id, w)
    case Message(d) => if d.TcpClose? then CloseWrite(id) else SendUdp(d)
    case Ingest => Ingest
    case DrainPass => DrainPass
    case ServicePass(env) => ServicePass(id, env)
    case Network(n, st) => Network(id, n, st)
    case ReapPass => ReapPass
  }

  /** Steps that touch no queue but by sending. */
  predicate Private(s: L.Step) { s.Write? || s.Network? || s.ServicePass? }

  /**
  The process holds this flow in state `l`, and every message in the channel is
  its own. Either so is every backlog entry, or the backlog is full.
  */
  ghost predicate Shows(w: World, id: nat, l: L.Local, alone: bool) {
    && Sound(w) && id in w.pasts && Project(w, id) == l
    && (forall d :: d in w.chan ==> d.id == id)
    && (if alone then OnlyOwn(w, id) else w.bytes >= MAX_BACKLOG_BYTES)
  }

  /** Some run of the process shows the flow in state `l`. */
  ghost predicate Reachable(id: nat, l: L.Local, alone: bool, cfg: Config) {
    exists es :: Shows(Run(es, cfg), id, l, alone)
  }

  lemma EnactIsLocal(w: World, s: L.Step, id: nat, cfg: Config)
    requires Sound(w) && id in w.pasts && OnlyOwn(w, id) && Possible(Project(w, id), s, id)
    ensures L.Next(Project(w, id), Localise(w, Enact(s, id), id), id, cfg) == L.Next(Project(w, id), s, id, cfg)
  {
    OwnIsAll(w.chan, id);
    OwnIsAll(w.queue, id);
  }

  lemma EnactAlone(w: World, s: L.Step, id: nat, cfg: Config)
    requires Sound(w) && id in w.pasts && OnlyOwn(w, id) && Possible(Project(w, id), s, id)
    ensures Shows(Step(w, Enact(s, id), cfg), id, L.Next(Project(w, id), s, id, cfg), true)
  {
    var e := Enact(s, id);
    EnactIsLocal(w, s, id, cfg);
    StepProjects(w, e, id, cfg);
    StepKeepsSound(w, e, cfg);
    if e.Ingest? {
      OwnIngest(w, id, cfg);
    } else {
      OwnStays(w, e, id, cfg);
    }
  }

  lemma EnactBeside(w: World, s: L.Step, id: nat, cfg: Config)
    requires id in w.pasts && id in w.writers && Shows(w, id, Project(w, id), false) && Private(s)
    ensures Shows(Step(w, Enact(s, id), cfg), id, L.Next(Project(w, id), s, id, cfg), false)
  {
    var e := Enact(s, id);
    StepProjects(w, e, id, cfg);
    StepKeepsSound(w, e, cfg);
  }

  /** A reachable state of a flow stays reachable under every step it can make. */
  lemma Then(id: nat, l: L.Local, alone: bool, s: L.Step, cfg: Config)
    requires Reachable(id, l, alone, cfg) && Possible(l, s, id) && (alone || Private(s))
    ensures Reachable(id, L.Next(l, s, id, cfg), alone, cfg)
  {
    var es :| Shows(Run(es, cfg), id, l, alone);
    RunSnoc(es, Enact(s, id), cfg);
    if alone {
      EnactAlone(Run(es, cfg), s, id, cfg);
    } else {
      EnactBeside(Run(es, cfg), s, id, cfg);
    }
    assert Shows(Run(es + [Enact(s, id)], cfg), id, L.Next(l, s, id, cfg), alone);
  }

  lemma FirstFlowOpens(cfg: Config)
    ensures Reachable(1, L.Birth(0, cfg), true, cfg)
  {
    RunSnoc([], Open, cfg);
    assert [] + [Open] == [Open];
    RunIsSound([Open], cfg);
    OpenProjects(Start, cfg);
    assert Shows(Run([Open], cfg), 1, L.Birth(0, cfg), true);
  }

  /** The steps lead a flow from `l` to `l'`, each one that it can make where it stands. */
  ghost predicate Leads(l: L.Local, steps: seq<L.Step>, l': L.Local, id: nat, alone: bool, cfg: Config)
    decreases |steps|
  {
    if steps == [] then l == l'
    else
      var prefix, s := steps[..|steps| - 1], steps[|steps| - 1];
      var m := L.Run(l, prefix, id, cfg);
      Leads(l, prefix, m, id, alone, cfg) && Possible(m, s, id) && (alone || Private(s)) && l' == L.Next(m, s, id, cfg)
  }

  lemma LeadsOn(l: L.Local, steps: seq<L.Step>, m: L.Local, s: L.Step, id: nat, alone: bool, cfg: Config)
    requires Leads(l, steps, m, id, alone, cfg) && Possible(m, s, id) && (alone || Private(s))
    ensures Leads(l, steps + [s], L.Next(m, s, id, cfg), id, alone, cfg)
  {
    LeadsRuns(l, steps, m, id, alone, cfg);
    assert (steps + [s])[..|steps|] == steps;
  }

  lemma {:induction false} LeadsRuns(l: L.Local, steps: seq<L.Step>, l': L.Local, id: nat, alone: bool, cfg: Config)
    requires Leads(l, steps, l', id, alone, cfg)
    ensures L.Run(l, steps, id, cfg) == l'
  {
  }

  lemma {:induction false} StaysReachable(id: nat, l: L.Local, steps: seq<L.Step>, l': L.Local, alone: bool,
                                          cfg: Config)
    requires Reachable(id, l, alone, cfg) && Leads(l, steps, l', id, alone, cfg)
    ensures Reachable(id, l', alone, cfg)
    decreases |steps|
  {
    if steps != [] {
      var prefix := steps[..|steps| - 1];
      var m := L.Run(l, prefix, id, cfg);
      StaysReachable(id, l, prefix, m, alone, cfg);
      Then(id, m, alone, steps[|steps| - 1], cfg);
    }
  }

  /**
  The converse of the projection: every run of the private machine, from the
  opening of the first flow, is that flow's share of some run of the process.
  */
  lemma PrivateRunsAreReal(steps: seq<L.Step>, l: L.Local, cfg: Config) returns (es: seq<Event>)
    requires Leads(L.Birth(0, cfg), steps, l, 1, true, cfg)
    ensures var w := Run(es, cfg); 1 in w.pasts && 1 in w.writers && Project(w, 1) == l
    ensures Shows(Run(es, cfg), 1, l, true)
  {
    FirstFlowOpens(cfg);
    StaysReachable(1, L.Birth(0, cfg), steps, l, true, cfg);
    es :| Shows(Run(es, cfg), 1, l, true);
  }

  // ----- A connected flow -----

  /** A pass during which the socket takes nothing and nothing else happens. */
  const NOTHING := Env(false, 0, 0, false, false)

  function Connected(cfg: Config): Flow {
    NewFlow(0, cfg).(sock := Socket(Established, []), established := true, respWaiting := false)
  }

  lemma ConnectionIsServed(cfg: Config)
    ensures var f := NewFlow(0, cfg).(sock := Socket(Established, []));
            && Enter(f, NOTHING, 0).Serve? && !Flapping(f, NOTHING, 0, cfg)
            && Service(f, NOTHING, 0, cfg) == Kept(Connected(cfg))
  {
  }

  /** A flow that has connected and done nothing else. */
  ghost predicate Idle(l: L.Local, f: Flow) {
    l.flow == Some(f) && l.back == [] && l.chan == [] && l.writer.Idle? && l.now == 0 && !l.past.lost
  }

  lemma ConnectionSteps(id: nat, cfg: Config) returns (l1: L.Local, l2: L.Local)
    ensures l1 == L.Next(L.Birth(0, cfg), L.Network(0, Established), id, cfg)
    ensures l2 == L.Next(l1, L.ServicePass(NOTHING), id, cfg) && Idle(l2, Connected(cfg))
  {
    l1 := L.Next(L.Birth(0, cfg), L.Network(0, Established), id, cfg);
    l2 := L.Next(l1, L.ServicePass(NOTHING), id, cfg);
    assert l1.flow == Some(NewFlow(0, cfg).(sock := Socket(Established, [])));
    ConnectionIsServed(cfg);
  }

  /** A flow just opened connects and is served once. */
  lemma Connects(id: nat, alone: bool, cfg: Config) returns (steps: seq<L.Step>, l: L.Local)
    ensures Leads(L.Birth(0, cfg), steps, l, id, alone, cfg) && Idle(l, Connected(cfg))
  {
    var l0, l1 := L.Birth(0, cfg), L.Birth(0, cfg);
    l1, l := ConnectionSteps(id, cfg);
    LeadsOn(l0, [], l0, L.Network(0, Established), id, alone, cfg);
    steps := [] + [L.Network(0, Established)];
    LeadsOn(l0, steps, l1, L.ServicePass(NOTHING), id, alone, cfg);
    steps := steps + [L.ServicePass(NOTHING)];
  }

  /** The flow with its writer somewhere in a write of `data`. */
  function InWrite(l: L.Local, f: Flow, wr: L.Writer, data: bytes, counted: nat): L.Local {
    l.(flow := Some(f.(credit := f.credit.(sent := counted))), writer := wr,
       past := l.past.(largest := Max(l.past.largest, |data|), began := l.now))
  }

  /** Nothing of the flow is outstanding and its gate is open. */
  ghost predicate Empty(f: Flow) {
    f.established && !f.credit.closed && f.credit.sent == 0 && f.credit.acked == 0
  }

  lemma AdmissionSteps(id: nat, l: L.Local, f: Flow, data: bytes, cfg: Config)
    requires Idle(l, f) && Empty(f)
    ensures var at := l.now + L.CREDIT_WAIT_MAX;
            var c, u := InWrite(l, f, L.Checking(data, at), data, 0), InWrite(l, f, L.Unclosed(data, at), data, 0);
            var m, a := InWrite(l, f, L.Measured(data, at, 0), data, 0), InWrite(l, f, L.Admitted(data), data, 0);
            && L.Next(l, L.Write(L.Begin(data)), id, cfg) == c && L.Next(c, L.Write(L.TestClosed), id, cfg) == u
            && L.Next(u, L.Write(L.Measure), id, cfg) == m && L.Next(m, L.Write(L.TestBudget), id, cfg) == a
            && L.Next(a, L.Write(L.Commit), id, cfg) == InWrite(l, f, L.Reserved(data), data, |data|)
  {
  }

  /** With nothing outstanding the gate admits any write, and counts it. */
  lemma EmptyPipeAdmits(start: L.Local, before: seq<L.Step>, id: nat, l: L.Local, alone: bool, f: Flow, data: bytes,
                        cfg: Config)
    returns (steps: seq<L.Step>)
    requires Leads(start, before, l, id, alone, cfg) && Idle(l, f) && Empty(f)
    ensures Leads(start, steps, InWrite(l, f, L.Reserved(data), data, |data|), id, alone, cfg)
  {
    var at := l.now + L.CREDIT_WAIT_MAX;
    AdmissionSteps(id, l, f, data, cfg);
    LeadsOn(start, before, l, L.Write(L.Begin(data)), id, alone, cfg);
    steps := before + [L.Write(L.Begin(data))];
    LeadsOn(start, steps, InWrite(l, f, L.Checking(data, at), data, 0), L.Write(L.TestClosed), id, alone, cfg);
    steps := steps + [L.Write(L.TestClosed)];
    LeadsOn(start, steps, InWrite(l, f, L.Unclosed(data, at), data, 0), L.Write(L.Measure), id, alone, cfg);
    steps := steps + [L.Write(L.Measure)];
    LeadsOn(start, steps, InWrite(l, f, L.Measured(data, at, 0), data, 0), L.Write(L.TestBudget), id, alone, cfg);
    steps := steps + [L.Write(L.TestBudget)];
    LeadsOn(start, steps, InWrite(l, f, L.Admitted(data), data, 0), L.Write(L.Commit), id, alone, cfg);
    steps := steps + [L.Write(L.Commit)];
  }

  lemma EnqueueStep(id: nat, l: L.Local, f: Flow, data: bytes, cfg: Config)
    requires Idle(l, f)
    ensures var l' := L.Next(InWrite(l, f, L.Reserved(data), data, |data|), L.Write(L.Enqueue), id, cfg);
            && l'.flow == Some(f.(credit := f.credit.(sent := |data|)))
            && l'.back == [] && l'.chan == [Tcp(id, data)] && l'.now == 0 && !l'.past.lost
  {
    assert [] + [Tcp(id, data)] == [Tcp(id, data)];
  }

  /** A connected flow, and one write of it in the channel. */
  lemma Writes(id: nat, alone: bool, data: bytes, cfg: Config) returns (steps: seq<L.Step>, l: L.Local)
    ensures Leads(L.Birth(0, cfg), steps, l, id, alone, cfg)
    ensures l.flow == Some(Connected(cfg).(credit := Credit(|data|, 0, MIN_FLOW_QUEUE_BYTES, false)))
    ensures l.back == [] && l.chan == [Tcp(id, data)] && l.now == 0 && !l.past.lost
  {
    var s0, l0 := Connects(id, alone, cfg);
    var s1 := EmptyPipeAdmits(L.Birth(0, cfg), s0, id, l0, alone, Connected(cfg), data, cfg);
    var l1 := InWrite(l0, Connected(cfg), L.Reserved(data), data, |data|);
    LeadsOn(L.Birth(0, cfg), s1, l1, L.Write(L.Enqueue), id, alone, cfg);
    steps, l := s1 + [L.Write(L.Enqueue)], L.Next(l1, L.Write(L.Enqueue), id, cfg);
    EnqueueStep(id, l0, Connected(cfg), data, cfg);
  }

  // ----- Outstanding with nothing in flight -----

  lemma AbandonStep(id: nat, l: L.Local, f: Flow, data: bytes, cfg: Config)
    requires Idle(l, f)
    ensures var l' := L.Next(InWrite(l, f, L.Reserved(data), data, |data|), L.Write(L.Abandon), id, cfg);
            && l'.flow == Some(f.(credit := f.credit.(sent := |data|)))
            && l'.back == [] && l'.chan == [] && !l'.past.lost
  {
  }

  /** A write dropped between the count and the channel: nothing is in flight, and one byte is outstanding. */
  lemma OutstandingWithNothingInFlight(cfg: Config) returns (es: seq<Event>)
    ensures var w := Run(es, cfg);
            && 1 in w.pasts && 1 in w.t.tcp && !w.pasts[1].lost
            && InFlight(w, 1) == 0 && w.t.tcp[1].credit.Outstanding() == 1
  {
    var s0, l0 := Connects(1, true, cfg);
    var s1 := EmptyPipeAdmits(L.Birth(0, cfg), s0, 1, l0, true, Connected(cfg), [7], cfg);
    var l1 := InWrite(l0, Connected(cfg), L.Reserved([7]), [7], 1);
    LeadsOn(L.Birth(0, cfg), s1, l1, L.Write(L.Abandon), 1, true, cfg);
    AbandonStep(1, l0, Connected(cfg), [7], cfg);
    es := PrivateRunsAreReal(s1 + [L.Write(L.Abandon)], L.Next(l1, L.Write(L.Abandon), 1, cfg), cfg);
  }

  // ----- Bytes left behind a closed sending side -----

  /** One byte more than the socket can hold. */
  function Overfull(cfg: Config): bytes { seq(cfg.txBuf + 1, i => 7) }

  /** A pass during which the socket takes all it has room for. */
  function Greedy(cfg: Config): Env { Env(false, cfg.txBuf + 1, 0, false, false) }

  function HalfOpen(cfg: Config): Flow {
    Connected(cfg).(credit := Credit(|Overfull(cfg)|, 0, MIN_FLOW_QUEUE_BYTES, false), pending := Overfull(cfg),
                    sock := Socket(CloseWait, []))
  }

  lemma PassTruncates(cfg: Config)
    ensures Enter(HalfOpen(cfg), Greedy(cfg), 0).Serve? && !Flapping(HalfOpen(cfg), Greedy(cfg), 0, cfg)
    ensures var o := Service(HalfOpen(cfg), Greedy(cfg), 0, cfg);
            && o.Kept? && !o.flow.sock.MaySend() && |o.flow.pending| == 1 && |o.flow.sock.tx| == cfg.txBuf
            && !o.flow.halfClosed
  {
    assert Taken(HalfOpen(cfg), Greedy(cfg), cfg) == cfg.txBuf;
    TruncationIsExact(HalfOpen(cfg), Greedy(cfg), 0, cfg);
    ServiceMovesBytes(HalfOpen(cfg), Greedy(cfg), 0, cfg);
  }

  lemma WriteIsIngested(l: L.Local, f: Flow, data: bytes, id: nat, cfg: Config)
    requires l.flow == Some(f) && f.pending == [] && l.back == [] && l.chan == [Tcp(id, data)]
    requires 0 < |data| <= MaxPending(cfg)
    ensures var l' := L.Next(l, L.Step.Ingest, id, cfg); l' == l.(flow := Some(f.(pending := data)), chan := [])
  {
    DrainOneOfOne(f, Tcp(id, data), MaxPending(cfg));
    assert [] + data == data && l.chan[1..] == [];
  }

  lemma TruncationSteps(l0: L.Local, cfg: Config) returns (l1: L.Local, l2: L.Local, l3: L.Local)
    requires l0.flow == Some(Connected(cfg).(credit := Credit(|Overfull(cfg)|, 0, MIN_FLOW_QUEUE_BYTES, false)))
    requires l0.back == [] && l0.chan == [Tcp(1, Overfull(cfg))] && l0.now == 0 && !l0.past.lost
    ensures l1 == L.Next(l0, L.Step.Ingest, 1, cfg) && l2 == L.Next(l1, L.Network(0, CloseWait), 1, cfg)
    ensures l3 == L.Next(l2, L.ServicePass(Greedy(cfg)), 1, cfg) && !l3.past.lost
    ensures l3.flow.Some? && !l3.flow.value.halfClosed && |l3.flow.value.pending| == 1
    ensures |l3.flow.value.sock.tx| == cfg.txBuf && !l3.flow.value.sock.MaySend()
  {
    l1 := L.Next(l0, L.Step.Ingest, 1, cfg);
    l2 := L.Next(l1, L.Network(0, CloseWait), 1, cfg);
    l3 := L.Next(l2, L.ServicePass(Greedy(cfg)), 1, cfg);
    WriteIsIngested(l0, l0.flow.value, Overfull(cfg), 1, cfg);
    assert l2.flow == Some(HalfOpen(cfg)) && l2.now == 0 && !l2.past.lost;
    PassTruncates(cfg);
  }

  /**
  A reachable truncation: the peer half-closes, the socket takes all it has room
  for, and it is closed over the byte that is left.
  */
  lemma TruncationIsReachable(cfg: Config) returns (es: seq<Event>)
    ensures var w := Run(es, cfg);
            && 1 in w.pasts && 1 in w.t.tcp && !w.pasts[1].lost && !w.t.tcp[1].halfClosed
            && |w.t.tcp[1].pending| == 1 && |w.t.tcp[1].sock.tx| == cfg.txBuf && !w.t.tcp[1].sock.MaySend()
  {
    var birth := L.Birth(0, cfg);
    var steps, l0 := Writes(1, true, Overfull(cfg), cfg);
    var l1, l2, l3 := TruncationSteps(l0, cfg);
    LeadsOn(birth, steps, l0, L.Step.Ingest, 1, true, cfg);
    steps := steps + [L.Step.Ingest];
    LeadsOn(birth, steps, l1, L.Network(0, CloseWait), 1, true, cfg);
    steps := steps + [L.Network(0, CloseWait)];
    LeadsOn(birth, steps, l2, L.ServicePass(Greedy(cfg)), 1, true, cfg);
    es := PrivateRunsAreReal(steps + [L.ServicePass(Greedy(cfg))], l3, cfg);
  }

  // ----- One flow held back by another -----

  /** A message that fills `pending` and then the whole backlog. */
  function Flood(cfg: Config): bytes { seq(MaxPending(cfg) + MAX_BACKLOG_BYTES, i => 0) }

  lemma FloodFillsTheBacklog(l: L.Local, f: Flow, id: nat, cfg: Config)
    requires l.flow == Some(f) && f.pending == [] && l.back == [] && l.chan == [Tcp(id, Flood(cfg))]
    ensures var l' := L.Next(l, L.Step.Ingest, id, cfg);
            l'.chan == [] && Total(l'.back) == MAX_BACKLOG_BYTES && l'.now == l.now
  {
    DrainOneOfOne(f, Tcp(id, Flood(cfg)), MaxPending(cfg));
    assert l.chan[1..] == [];
  }

  /** After the flood the next flow opens into a process whose backlog is full. */
  lemma OpensBeside(es: seq<Event>, l: L.Local, cfg: Config) returns (id: nat)
    requires Shows(Run(es, cfg), 1, l, true) && l.chan == [] && l.now == 0 && Total(l.back) >= MAX_BACKLOG_BYTES
    ensures id != 1 && Reachable(id, L.Birth(0, cfg), false, cfg)
  {
    var w := Run(es, cfg);
    id := w.nextId;
    OwnIsAll(w.chan, 1);
    OwnIsAll(w.queue, 1);
    RunSnoc(es, Open, cfg);
    StepKeepsSound(w, Open, cfg);
    OpenProjects(w, cfg);
    assert w.chan + [] == [];
    assert Shows(Run(es + [Open], cfg), id, L.Birth(0, cfg), false);
  }

  /** A run after which the backlog is full of the first flow's bytes and another flow opens. */
  lemma FloodThenOpen(cfg: Config) returns (id: nat)
    ensures id != 1 && Reachable(id, L.Birth(0, cfg), false, cfg)
  {
    var steps, l0 := Writes(1, true, Flood(cfg), cfg);
    var l1 := L.Next(l0, L.Step.Ingest, 1, cfg);
    LeadsOn(L.Birth(0, cfg), steps, l0, L.Step.Ingest, 1, true, cfg);
    FloodFillsTheBacklog(l0, l0.flow.value, 1, cfg);
    var es := PrivateRunsAreReal(steps + [L.Step.Ingest], l1, cfg);
    id := OpensBeside(es, l1, cfg);
  }

  lemma FullBacklogHolds(w: World, id: nat, l: L.Local, cfg: Config)
    requires Shows(w, id, l, false) && l.flow.Some?
    ensures id in w.t.tcp && w.t.tcp[id] == l.flow.value && w.chan == l.chan && Of(w.queue, id) == l.back
    ensures w.bytes >= MAX_BACKLOG_BYTES && Step(w, Ingest, cfg) == w
  {
    OwnIsAll(w.chan, id);
  }

  /** Another flow's entries alone can hold a flow back: it has nothing in the backlog, and its message stays. */
  lemma AnotherFlowHoldsItBack(cfg: Config) returns (es: seq<Event>, id: nat)
    ensures var w := Run(es, cfg);
            && id in w.pasts && id in w.t.tcp && w.t.tcp[id].established
            && w.chan == [Tcp(id, [7])] && Of(w.queue, id) == []
            && w.bytes >= MAX_BACKLOG_BYTES && Step(w, Ingest, cfg) == w
  {
    id := FloodThenOpen(cfg);
    var steps, l := Writes(id, false, [7], cfg);
    StaysReachable(id, L.Birth(0, cfg), steps, l, false, cfg);
    es :| Shows(Run(es, cfg), id, l, false);
    FullBacklogHolds(Run(es, cfg), id, l, cfg);
  }
}
