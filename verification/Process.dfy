/**
The objects the run loop owns are the process the theorems speak of: whatever
the loop does to them is a run of events, so what holds in every reachable state
holds of the objects.
*/
module Process {
  import opened Common
  import opened FlowState
  import opened Backlog
  import opened Scheduler
  import opened World
  import opened Upload

  // ----- Ingesting -----

  /** A process with other tables, backlog and channel, the backlog's own fields exact. */
  function Moved(w: World, t: Tables, queue: seq<DataIn>, chan: seq<DataIn>): World {
    w.(t := t, queue := queue, blocked := Ids(queue), bytes := Total(queue), chan := chan)
  }

  /** Placing the head of the channel is one `Ingest` event. */
  lemma PlaceIsIngest(w: World, cfg: Config)
    requires Sound(w) && w.chan != [] && w.bytes < MAX_BACKLOG_BYTES
    ensures var (t, queue) := Place(w.t, w.queue, w.chan[0], MaxPending(cfg));
            IngestHead(w, cfg) == Moved(w, t, queue, w.chan[1..])
  {
    var d := w.chan[0];
    var (t, back) := TryHandle(w.t, d, MaxPending(cfg));
    if d.id in w.blocked {
      TotalAppend(w.queue, [d]);
      IdsSnoc(w.queue, d);
    } else if back.Some? {
      TotalAppend(w.queue, [back.value]);
      IdsSnoc(w.queue, back.value);
    } else {
      assert w.queue + [] == w.queue;
    }
  }

  /** The process after `n` ingests. */
  function IngestMany(w: World, n: nat, cfg: Config): World
    decreases n
  {
    if n == 0 then w else IngestMany(IngestHead(w, cfg), n - 1, cfg)
  }

  function Ingests(n: nat): seq<Event> { seq(n, i => Ingest) }

  lemma {:induction false} IngestsRun(es: seq<Event>, n: nat, cfg: Config)
    ensures Run(es + Ingests(n), cfg) == IngestMany(Run(es, cfg), n, cfg)
    decreases n
  {
    if n == 0 {
      assert es + Ingests(n) == es;
    } else {
      IngestsRun(es + [Ingest], n - 1, cfg);
      RunSnoc(es, Ingest, cfg);
      assert (es + [Ingest]) + Ingests(n - 1) == es + Ingests(n);
    }
  }

  lemma DrainStep(t: Tables, queue: seq<DataIn>, app: seq<DataIn>, budget: nat, max: nat)
    requires budget > 0 && Total(queue) < MAX_BACKLOG_BYTES && app != []
    ensures var (t', queue') := Place(t, queue, app[0], max);
            var r := DrainApp(t', queue', app[1..], budget - 1, max);
            DrainApp(t, queue, app, budget, max) == r.(moved := r.moved + 1)
  {
  }

  lemma {:induction false} DrainAppIngests(w: World, r: Drained, budget: nat, cfg: Config)
    requires Sound(w) && r == DrainApp(w.t, w.queue, w.chan, budget, MaxPending(cfg))
    ensures IngestMany(w, r.moved, cfg) == Moved(w, r.t, r.queue, r.app)
    decreases budget
  {
    if budget > 0 && Total(w.queue) < MAX_BACKLOG_BYTES && w.chan != [] {
      var (t, queue) := Place(w.t, w.queue, w.chan[0], MaxPending(cfg));
      var n := DrainApp(t, queue, w.chan[1..], budget - 1, MaxPending(cfg));
      DrainStep(w.t, w.queue, w.chan, budget, MaxPending(cfg));
      PlaceIsIngest(w, cfg);
      IngestKeepsSound(w, cfg);
      DrainAppIngests(Moved(w, t, queue, w.chan[1..]), n, budget - 1, cfg);
    }
  }

  /** A drain of the app queue is as many `Ingest` events as it moves messages. */
  lemma DrainAppIsIngests(es: seq<Event>, budget: nat, cfg: Config)
    ensures var w := Run(es, cfg);
            var r := DrainApp(w.t, w.queue, w.chan, budget, MaxPending(cfg));
            Run(es + Ingests(r.moved), cfg) == Moved(w, r.t, r.queue, r.app)
  {
    var w := Run(es, cfg);
    var r := DrainApp(w.t, w.queue, w.chan, budget, MaxPending(cfg));
    RunIsSound(es, cfg);
    DrainAppIngests(w, r, budget, cfg);
    IngestsRun(es, r.moved, cfg);
  }

  // ----- Draining and reaping -----

  lemma DrainIsAnEvent(w: World, cfg: Config)
    requires Sound(w)
    ensures var (t, kept) := Drain(w.t, w.queue, {}, MaxPending(cfg));
            Step(w, DrainPass, cfg) == Moved(w, t, kept, w.chan)
  {
  }

  /** The state a reap leaves, as its two rounds of resets compute it. */
  lemma ReapIsAnEvent(w: World, cfg: Config)
    requires Sound(w)
    ensures var stalled := StalledIn(w.t.tcp, w.now);
            var tcp1, queue1 := ResetFlows(w.t.tcp, stalled), Without(w.queue, stalled);
            var wedged := WedgedIn(tcp1, Ids(queue1), w.now);
            var v := Step(w, ReapPass, cfg);
            && v.t == w.t.(tcp := ResetFlows(tcp1, wedged)) && v.queue == Without(queue1, wedged)
            && v.blocked == Ids(v.queue) && v.bytes == Total(v.queue)
            && v.chan == w.chan && v.nextId == w.nextId && v.now == w.now
  {
    ResetKeepsSound(w, StalledIds(w));
    var w1 := ResetAll(w, StalledIds(w));
    ResetKeepsSound(w1, WedgedIds(w1));
  }

  // ----- Serving -----

  lemma OnePass(w: World, id: nat, env: Env, cfg: Config)
    requires Sound(w) && id in w.t.tcp
    ensures var o, v := Service(w.t.tcp[id], env, w.now, cfg), Step(w, ServicePass(id, env), cfg);
            && v.t == w.t.(tcp := if o.Kept? then w.t.tcp[id := o.flow] else w.t.tcp - {id})
            && v.queue == w.queue && v.blocked == w.blocked && v.bytes == w.bytes && v.chan == w.chan
            && v.nextId == w.nextId && v.now == w.now
  {
    assert w.chan + [] == w.chan;
  }

  ghost predicate Distinct(ids: seq<nat>) { forall i, j :: 0 <= i < j < |ids| ==> ids[i] != ids[j] }

  function Passes(ids: seq<nat>, envs: map<nat, Env>): seq<Event>
    requires forall id :: id in ids ==> id in envs
  {
    seq(|ids|, i requires 0 <= i < |ids| => ServicePass(ids[i], envs[ids[i]]))
  }

  /** What a pass over these flows leaves of one flow. */
  function After(tcp: map<nat, Flow>, id: nat, served: bool, env: Env, now: nat, cfg: Config): Option<Flow>
    requires id in tcp
  {
    if !served then Some(tcp[id])
    else
      var o := Service(tcp[id], env, now, cfg);
      if o.Kept? then Some(o.flow) else None
  }

  /** `v` is `w` with the flows of `ids` served once each, and nothing else different but the histories. */
  ghost predicate ServedAll(w: World, v: World, ids: seq<nat>, envs: map<nat, Env>, cfg: Config) {
    && v.t.udp == w.t.udp && v.queue == w.queue && v.blocked == w.blocked && v.bytes == w.bytes && v.chan == w.chan
    && v.nextId == w.nextId && v.now == w.now && v.t.tcp.Keys <= w.t.tcp.Keys
    && (forall id :: id in w.t.tcp && id in envs ==>
          Lookup(v.t.tcp, id) == After(w.t.tcp, id, id in ids, envs[id], w.now, cfg))
  }

  lemma ServedOneMore(w: World, v: World, ids: seq<nat>, id: nat, envs: map<nat, Env>, cfg: Config)
    requires Sound(v) && ServedAll(w, v, ids, envs, cfg) && id !in ids && id in w.t.tcp && id in envs
    ensures ServedAll(w, Step(v, ServicePass(id, envs[id]), cfg), ids + [id], envs, cfg)
  {
    assert Lookup(v.t.tcp, id) == Some(w.t.tcp[id]);
    OnePass(v, id, envs[id], cfg);
  }

  /** The process after a pass over these flows. */
  function ServeMany(w: World, ids: seq<nat>, envs: map<nat, Env>, cfg: Config): World
    requires forall id :: id in ids ==> id in envs
    decreases |ids|
  {
    if ids == [] then w
    else Step(ServeMany(w, ids[..|ids| - 1], envs, cfg), ServicePass(ids[|ids| - 1], envs[ids[|ids| - 1]]), cfg)
  }

  lemma {:induction false} PassesRun(es: seq<Event>, ids: seq<nat>, envs: map<nat, Env>, cfg: Config)
    requires forall id :: id in ids ==> id in envs
    ensures Run(es + Passes(ids, envs), cfg) == ServeMany(Run(es, cfg), ids, envs, cfg)
    decreases |ids|
  {
    if ids == [] {
      assert es + Passes(ids, envs) == es;
    } else {
      var before, id := ids[..|ids| - 1], ids[|ids| - 1];
      var done := es + Passes(before, envs);
      PassesRun(es, before, envs, cfg);
      RunSnoc(done, ServicePass(id, envs[id]), cfg);
      assert done + [ServicePass(id, envs[id])] == es + Passes(ids, envs);
    }
  }

  /** Serving distinct flows one after another serves each from the state it had at the start. */
  lemma {:induction false} PassesServeAll(w: World, ids: seq<nat>, envs: map<nat, Env>, cfg: Config)
    requires Sound(w) && Distinct(ids) && forall id :: id in ids ==> id in w.t.tcp && id in envs
    ensures Sound(ServeMany(w, ids, envs, cfg)) && ServedAll(w, ServeMany(w, ids, envs, cfg), ids, envs, cfg)
    decreases |ids|
  {
    if ids != [] {
      var before, id := ids[..|ids| - 1], ids[|ids| - 1];
      var v := ServeMany(w, before, envs, cfg);
      PassesServeAll(w, before, envs, cfg);
      assert id in ids && id !in before;
      ServedOneMore(w, v, before, id, envs, cfg);
      StepKeepsSound(v, ServicePass(id, envs[id]), cfg);
      assert before + [id] == ids;
    }
  }

  /** The pass over the table and the events over the process leave the same flows. */
  lemma SameFlows(w: World, v: World, ids: seq<nat>, envs: map<nat, Env>, tcp: map<nat, Flow>, cfg: Config)
    requires ServedAll(w, v, ids, envs, cfg) && w.t.tcp.Keys <= envs.Keys && forall id :: id in w.t.tcp ==> id in ids
    requires tcp.Keys <= w.t.tcp.Keys
    requires forall id :: id in w.t.tcp ==>
               var o := Service(w.t.tcp[id], envs[id], w.now, cfg);
               Lookup(tcp, id) == if o.Kept? then Some(o.flow) else None
    ensures tcp == v.t.tcp
  {
    forall id | id in w.t.tcp ensures Lookup(tcp, id) == Lookup(v.t.tcp, id) {
      assert id in envs;
    }
    forall id | id in tcp || id in v.t.tcp ensures id in tcp && id in v.t.tcp && tcp[id] == v.t.tcp[id] {
      assert Lookup(tcp, id) == Lookup(v.t.tcp, id);
    }
  }

  lemma {:induction false} Listed(s: set<nat>) returns (ids: seq<nat>)
    ensures Distinct(ids) && forall x :: x in ids <==> x in s
    decreases s
  {
    if s == {} {
      ids := [];
    } else {
      var x :| x in s;
      var rest := Listed(s - {x});
      ids := rest + [x];
    }
  }

  /** Events that are not the loop's own. */
  predicate Foreign(e: Event) { e.Advance? || e.Write? || e.CloseWrite? || e.SendUdp? || e.Network? }

  lemma OutsideKeeps(w: World, e: Event, cfg: Config)
    requires Foreign(e)
    ensures var v := Step(w, e, cfg);
            && v.t.udp == w.t.udp && v.queue == w.queue && v.blocked == w.blocked && v.bytes == w.bytes
            && v.nextId == w.nextId
  {
  }

  // ----- The objects -----

  class Process {
    const loop: Loop
    const app: Receiver<DataIn>
    ghost var events: seq<Event>

    /** The state of the process after everything that has happened. */
    ghost function Now(): World
      reads this
    {
      Run(events, loop.stack.cfg)
    }

    /** The objects are that state. */
    ghost predicate Valid()
      reads this, loop.stack, loop.backlog, app
    {
      && loop.stack.View() == Now().t && loop.stack.nextId == Now().nextId
      && loop.backlog.queue == Now().queue && loop.backlog.blocked == Now().blocked
      && loop.backlog.bytes == Now().bytes && app.items == Now().chan
    }

    constructor (loop: Loop, app: Receiver<DataIn>)
      requires loop.stack.tcp == map[] && loop.stack.udp == {} && loop.stack.nextId == 1
      requires loop.backlog.queue == [] && loop.backlog.Valid() && app.items == []
      ensures this.loop == loop && this.app == app && events == [] && Valid()
    {
      this.loop, this.app, events := loop, app, [];
    }

    lemma IsSound()
      requires Valid()
      ensures Sound(Now()) && loop.backlog.Valid()
    {
      RunIsSound(events, loop.stack.cfg);
    }

    /**
    What holds in every reachable state holds of the objects: the stream of a
    live flow never reset is intact across them, and `outstanding` is bounded
    unless a write was forced.
    */
    lemma Holds(id: nat)
      requires Valid() && id in Now().pasts && id in loop.stack.tcp
      ensures var f, past := loop.stack.tcp[id], Now().pasts[id];
              && (!past.lost ==>
                    Payload(past.offered) == past.delivered + f.sock.tx + f.pending
                                             + Payload(Of(loop.backlog.queue, id)) + Payload(Of(app.items, id)))
              && (!past.forced ==>
                    f.credit.Outstanding() <= Max(Max(loop.stack.cfg.txBuf, MIN_FLOW_QUEUE_BYTES), past.largest))
      ensures loop.backlog.bytes < MAX_BACKLOG_BYTES + Now().biggest
    {
      IsSound();
      if !Now().pasts[id].lost {
        StreamIntegrity(events, id, loop.stack.cfg);
      }
      if !Now().pasts[id].forced {
        AdmissionBound(events, id, loop.stack.cfg);
      }
    }

    /** What the writers, the peers and the clock do between two steps of the loop. */
    method Outside(e: Event, tcp: map<nat, Flow>, sent: seq<DataIn>)
      requires Valid() && Foreign(e)
      requires var w := Step(Now(), e, loop.stack.cfg); tcp == w.t.tcp && app.items + sent == w.chan
      modifies this`events, loop.stack`tcp, app`items
      ensures Valid() && events == old(events) + [e]
    {
      RunSnoc(events, e, loop.stack.cfg);
      OutsideKeeps(Now(), e, loop.stack.cfg);
      loop.stack.tcp := tcp;
      app.items := app.items + sent;
      events := events + [e];
    }

    method Open(now: nat) returns (id: nat)
      requires Valid() && now == Now().now
      modifies this`events, loop.stack`tcp, loop.stack`nextId
      ensures Valid() && events == old(events) + [Event.Open] && id in loop.stack.tcp && id !in old(loop.stack.tcp)
    {
      IsSound();
      RunSnoc(events, Event.Open, loop.stack.cfg);
      assert Now().chan + [] == Now().chan;
      id := loop.stack.OpenTcp(now);
      events := events + [Event.Open];
    }

    method OpenDatagrams() returns (id: nat)
      requires Valid()
      modifies this`events, loop.stack`udp, loop.stack`nextId
      ensures Valid() && events == old(events) + [OpenUdp] && id in loop.stack.udp && id !in loop.stack.tcp
    {
      IsSound();
      RunSnoc(events, OpenUdp, loop.stack.cfg);
      id := loop.stack.OpenUdp();
      events := events + [OpenUdp];
    }

    /** `drain_app_data` on the objects: as many ingests as it reports. */
    method Drain(budget: nat) returns (moved: nat, done: bool)
      requires Valid()
      modifies this`events, loop.stack`tcp, loop.stack`udp, loop.backlog, app`items
      ensures Valid() && events == old(events) + Ingests(moved)
    {
      IsSound();
      DrainAppIsIngests(events, budget, loop.stack.cfg);
      moved, done := loop.DrainAppData(app, budget);
      events := events + Ingests(moved);
    }

    /** `drain_backlog` on the objects. */
    method DrainBacklog()
      requires Valid()
      modifies this`events, loop.stack`tcp, loop.stack`udp, loop.backlog
      ensures Valid() && events == old(events) + [DrainPass]
    {
      IsSound();
      DrainIsAnEvent(Now(), loop.stack.cfg);
      RunSnoc(events, DrainPass, loop.stack.cfg);
      loop.stack.DrainBacklog(loop.backlog);
      events := events + [DrainPass];
    }

    /** `reap_wedged` on the objects. */
    method Reap(now: nat)
      requires Valid() && now == Now().now
      modifies this`events, loop.stack`tcp, loop.backlog
      ensures Valid() && events == old(events) + [ReapPass]
    {
      IsSound();
      ReapIsAnEvent(Now(), loop.stack.cfg);
      RunSnoc(events, ReapPass, loop.stack.cfg);
      loop.stack.ReapWedged(loop.backlog, now);
      events := events + [ReapPass];
    }

    /** `service_tcp` on the objects: one service event for each flow, in some order. */
    method Serve(envs: map<nat, Env>, now: nat)
      requires Valid() && now == Now().now && loop.stack.tcp.Keys <= envs.Keys
      modifies this`events, loop.stack`tcp
      ensures Valid()
      ensures exists ids :: Distinct(ids) && (forall id :: id in ids <==> id in old(loop.stack.tcp))
                            && (forall id :: id in ids ==> id in envs)
                            && events == old(events) + Passes(ids, envs)
    {
      IsSound();
      ghost var w := Now();
      ghost var ids := Listed(loop.stack.tcp.Keys);
      PassesServeAll(w, ids, envs, loop.stack.cfg);
      PassesRun(events, ids, envs, loop.stack.cfg);
      loop.stack.ServiceTcp(envs, now);
      SameFlows(w, ServeMany(w, ids, envs, loop.stack.cfg), ids, envs, loop.stack.tcp, loop.stack.cfg);
      events := events + Passes(ids, envs);
    }
  }
}
