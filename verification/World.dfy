/**
The whole process: every flow, the one app channel and the one backlog they
share, under any interleaving of writers, service passes, network events, drains
and reaps. Each step projects onto the private machine of each flow, so every
invariant of `LocalFlow` holds of every flow in every reachable state.
*/
module World {
  import opened Common
  import opened Liveness
  import opened FlowState
  import opened Backlog
  import L = LocalFlow

  datatype World = World(
    t: Tables,
    queue: seq<DataIn>,
    blocked: set<nat>,
    bytes: nat,
    chan: seq<DataIn>,
    writers: map<nat, L.Writer>,
    pasts: map<nat, L.Past>,
    nextId: nat,
    biggest: nat,  // the largest message ever put into the channel
    now: nat)

  datatype Event =
    | Open
    | OpenUdp
    | Advance(dt: nat)
    | Write(id: nat, w: L.WriterStep)
    | CloseWrite(id: nat)
    | SendUdp(d: DataIn)
    | Ingest
    | DrainPass
    | ServicePass(id: nat, env: Env)
    | Network(id: nat, acked: nat, state: TcpSt)
    | ReapPass

  const Start := World(Tables(map[], {}), [], {}, 0, [], map[], map[], 1, 0, 0)

  /** One flow's share of the process. */
  function Project(w: World, id: nat): L.Local
    requires id in w.writers && id in w.pasts
  {
    L.Local(Lookup(w.t.tcp, id), Of(w.queue, id), Of(w.chan, id), w.writers[id], w.pasts[id], w.now)
  }

  /** Puts a flow's private state back; messages it sent go to the end of the shared channel. */
  function Embed(w: World, id: nat, l: L.Local, sent: seq<DataIn>): World {
    w.(t := w.t.(tcp := if l.flow.Some? then w.t.tcp[id := l.flow.value] else w.t.tcp - {id}),
       writers := w.writers[id := l.writer],
       pasts := w.pasts[id := l.past],
       chan := w.chan + sent,
       biggest := Max(w.biggest, Total(sent)))
  }

  /** The message a writer step puts into the channel. */
  function Sent(w: World, id: nat, s: L.WriterStep): seq<DataIn>
    requires id in w.writers
  {
    if s.Enqueue? && w.writers[id].Reserved? then [Tcp(id, w.writers[id].data)] else []
  }

  function StalledIds(w: World): set<nat> { StalledIn(w.t.tcp, w.now) }

  function WedgedIds(w: World): set<nat> { WedgedIn(w.t.tcp, w.blocked, w.now) }

  /** Resets the flows in `ids` and purges their backlog entries. */
  function ResetAll(w: World, ids: set<nat>): World {
    var queue := Without(w.queue, ids);
    w.(t := w.t.(tcp := ResetFlows(w.t.tcp, ids)),
       queue := queue,
       blocked := w.blocked - ids,
       bytes := Total(queue),
       pasts := map id | id in w.pasts :: if id in ids then w.pasts[id].(lost := true) else w.pasts[id])
  }

  /** `reap_wedged`. */
  function Reap(w: World): World {
    var w1 := ResetAll(w, StalledIds(w));
    ResetAll(w1, WedgedIds(w1))
  }

  /** `ingest` of the message at the head of the channel, while the memory bound allows it. */
  function IngestHead(w: World, cfg: Config): World {
    if w.chan == [] || w.bytes >= MAX_BACKLOG_BYTES then w
    else
      var d, w' := w.chan[0], w.(chan := w.chan[1..]);
      if d.id in w.blocked then Push(w', d)
      else
        var (t, back) := TryHandle(w.t, d, MaxPending(cfg));
        if back.Some? then Push(w'.(t := t), back.value) else w'.(t := t)
  }

  function Push(w: World, d: DataIn): World {
    w.(queue := w.queue + [d], blocked := w.blocked + {d.id}, bytes := w.bytes + Size(d))
  }

  function DrainAll(w: World, cfg: Config): World {
    if w.queue == [] then w
    else
      var (t, kept) := Drain(w.t, w.queue, {}, MaxPending(cfg));
      w.(t := t, queue := kept, blocked := Ids(kept), bytes := Total(kept))
  }

  predicate Known(w: World, id: nat) { id in w.t.tcp && id in w.writers && id in w.pasts }

  function Step(w: World, e: Event, cfg: Config): World {
    match e
    case Open =>
      var l := L.Birth(w.now, cfg);
      Embed(w, w.nextId, l, []).(nextId := w.nextId + 1)
    case OpenUdp => w.(t := w.t.(udp := w.t.udp + {w.nextId}), nextId := w.nextId + 1)
    case Advance(dt) => w.(now := w.now + dt)
    case Write(id, s) =>
      if Known(w, id) then Embed(w, id, L.WriterNext(Project(w, id), s, id), Sent(w, id, s)) else w
    case CloseWrite(id) =>
      if id in w.pasts && id in w.writers then
        Embed(w, id, L.Next(Project(w, id), L.Message(TcpClose(id)), id, cfg), [TcpClose(id)])
      else w
    case SendUdp(d) =>
      if (d.Udp? || d.UdpClose?) && d.id < w.nextId then
        var w' := w.(chan := w.chan + [d], biggest := Max(w.biggest, Size(d)));
        if d.id in w.pasts then
          w'.(pasts := w.pasts[d.id := w.pasts[d.id].(offered := w.pasts[d.id].offered + [d])])
        else w'
      else w
    case Ingest => IngestHead(w, cfg)
    case DrainPass => DrainAll(w, cfg)
    case ServicePass(id, env) =>
      if Known(w, id) then Embed(w, id, L.ServiceNext(Project(w, id), env, cfg), []) else w
    case Network(id, n, state) =>
      if Known(w, id) then Embed(w, id, L.NetworkNext(Project(w, id), n, state), []) else w
    case ReapPass => Reap(w)
  }

  function Run(es: seq<Event>, cfg: Config): World
    decreases |es|
  {
    if es == [] then Start else Step(Run(es[..|es| - 1], cfg), es[|es| - 1], cfg)
  }

  // ----- Bookkeeping of the shared state -----

  /**
  The backlog's own fields are exact, its size is bounded, and no id is known to
  any queue before the flow it names exists.
  */
  ghost predicate Sound(w: World) {
    && w.blocked == Ids(w.queue)
    && w.bytes == Total(w.queue)
    && w.bytes < MAX_BACKLOG_BYTES + w.biggest
    && (forall d :: d in w.queue || d in w.chan ==> d.id < w.nextId)
    && (forall d :: d in w.chan ==> Size(d) <= w.biggest)
    && w.t.tcp.Keys <= w.pasts.Keys && w.writers.Keys == w.pasts.Keys
    && (forall id :: id in w.pasts ==> id < w.nextId)
  }

  lemma IngestKeepsSound(w: World, cfg: Config)
    requires Sound(w)
    ensures Sound(IngestHead(w, cfg))
  {
    if w.chan != [] && w.bytes < MAX_BACKLOG_BYTES {
      var d := w.chan[0];
      assert d in w.chan;
      assert forall x :: x in w.chan[1..] ==> x in w.chan;
      if d.id in w.blocked {
        PushKeepsSound(w.(chan := w.chan[1..]), d);
      } else {
        var (t, back) := TryHandle(w.t, d, MaxPending(cfg));
        TryHandleIsLocal(w.t, d, MaxPending(cfg), d.id);
        if back.Some? {
          PushKeepsSound(w.(chan := w.chan[1..], t := t), back.value);
        }
      }
    }
  }

  lemma PushKeepsSound(w: World, d: DataIn)
    requires Sound(w) && w.bytes < MAX_BACKLOG_BYTES && d.id < w.nextId && Size(d) <= w.biggest
    ensures Sound(Push(w, d))
  {
    TotalAppend(w.queue, [d]);
    IdsSnoc(w.queue, d);
  }

  lemma DrainKeepsSound(w: World, cfg: Config)
    requires Sound(w)
    ensures Sound(DrainAll(w, cfg))
  {
    if w.queue != [] {
      var max := MaxPending(cfg);
      var (t, kept) := Drain(w.t, w.queue, {}, max);
      DrainShrinks(w.t, w.queue, {}, max);
      DrainKeepsIds(w.t, w.queue, {}, max);
      forall d | d in kept ensures d.id < w.nextId {
        assert d.id in Ids(kept);
      }
    }
  }

  lemma ResetKeepsSound(w: World, ids: set<nat>)
    requires Sound(w)
    ensures Sound(ResetAll(w, ids))
  {
    TotalWithout(w.queue, ids);
    IdsWithout(w.queue, ids);
    forall d | d in Without(w.queue, ids) ensures d.id < w.nextId {
      assert d.id in Ids(Without(w.queue, ids));
    }
  }

  lemma EmbedKeepsSound(w: World, id: nat, l: L.Local, sent: seq<DataIn>)
    requires Sound(w) && id in w.pasts
    requires sent == [] || (|sent| == 1 && sent[0].id == id)
    ensures Sound(Embed(w, id, l, sent))
  {
    assert sent == [] || Total(sent) == Size(sent[0]);
  }

  lemma StepKeepsSound(w: World, e: Event, cfg: Config)
    requires Sound(w)
    ensures Sound(Step(w, e, cfg))
  {
    match e
    case Open =>
    case OpenUdp =>
    case Advance(_) =>
    case Write(id, s) =>
      if Known(w, id) {
        EmbedKeepsSound(w, id, L.WriterNext(Project(w, id), s, id), Sent(w, id, s));
      }
    case CloseWrite(id) =>
      if id in w.pasts {
        EmbedKeepsSound(w, id, L.Next(Project(w, id), L.Message(TcpClose(id)), id, cfg), [TcpClose(id)]);
      }
    case SendUdp(d) =>
    case Ingest => IngestKeepsSound(w, cfg);
    case DrainPass => DrainKeepsSound(w, cfg);
    case ServicePass(id, env) =>
      if Known(w, id) {
        EmbedKeepsSound(w, id, L.ServiceNext(Project(w, id), env, cfg), []);
      }
    case Network(id, n, st) =>
      if Known(w, id) {
        EmbedKeepsSound(w, id, L.NetworkNext(Project(w, id), n, st), []);
      }
    case ReapPass =>
      ResetKeepsSound(w, StalledIds(w));
      var w1 := ResetAll(w, StalledIds(w));
      ResetKeepsSound(w1, WedgedIds(w1));
  }

  // ----- Projection -----

  /** What an event of the process is, seen from one flow. */
  function Localise(w: World, e: Event, id: nat): L.Step {
    match e
    case Advance(dt) => L.Advance(dt)
    case Write(i, s) => if i == id && id in w.t.tcp then L.Write(s) else L.Stutter
    case CloseWrite(i) => if i == id then L.Message(TcpClose(id)) else L.Stutter
    case SendUdp(d) => if (d.Udp? || d.UdpClose?) && d.id == id then L.Message(d) else L.Stutter
    case Ingest =>
      if w.chan != [] && w.bytes < MAX_BACKLOG_BYTES && w.chan[0].id == id then L.Step.Ingest else L.Stutter
    case DrainPass => L.DrainPass
    case ServicePass(i, env) => if i == id then L.ServicePass(env) else L.Stutter
    case Network(i, n, st) => if i == id then L.Network(n, st) else L.Stutter
    case ReapPass => L.ReapPass
    case _ => L.Stutter
  }

  lemma ChannelProjects(chan: seq<DataIn>, i: nat, sent: seq<DataIn>, id: nat)
    requires sent == [] || (|sent| == 1 && sent[0].id == i)
    ensures Of(chan + sent, id) == if id == i then Of(chan, i) + sent else Of(chan, id)
  {
    OfAppend(chan, sent, id);
    if sent != [] {
      assert sent == [sent[0]];
    }
    assert Of(sent, id) == if id == i then sent else [];
  }

  lemma EmbedProjects(w: World, i: nat, l: L.Local, sent: seq<DataIn>, id: nat)
    requires Sound(w) && id in w.pasts && i in w.pasts
    requires sent == [] || (|sent| == 1 && sent[0].id == i)
    requires l.back == Of(w.queue, i) && l.chan == Of(w.chan, i) + sent && l.now == w.now
    ensures var w' := Embed(w, i, l, sent);
            Project(w', id) == if id == i then l else Project(w, id)
  {
    ChannelProjects(w.chan, i, sent, id);
  }

  lemma WriteProjects(w: World, i: nat, s: L.WriterStep, id: nat)
    requires Sound(w) && id in w.pasts && Known(w, i)
    ensures Project(Embed(w, i, L.WriterNext(Project(w, i), s, i), Sent(w, i, s)), id)
         == if id == i then L.WriterNext(Project(w, i), s, i) else Project(w, id)
  {
    var l := L.WriterNext(Project(w, i), s, i);
    L.WriterAppends(Project(w, i), s, i);
    EmbedProjects(w, i, l, Sent(w, i, s), id);
  }

  lemma CloseProjects(w: World, i: nat, id: nat, cfg: Config)
    requires Sound(w) && id in w.pasts && i in w.pasts
    ensures Project(Step(w, CloseWrite(i), cfg), id)
         == L.Next(Project(w, id), Localise(w, CloseWrite(i), id), id, cfg)
  {
    EmbedProjects(w, i, L.Next(Project(w, i), L.Message(TcpClose(i)), i, cfg), [TcpClose(i)], id);
  }

  lemma SendUdpProjects(w: World, d: DataIn, id: nat, cfg: Config)
    requires Sound(w) && id in w.pasts
    ensures Project(Step(w, SendUdp(d), cfg), id)
         == L.Next(Project(w, id), Localise(w, SendUdp(d), id), id, cfg)
  {
    ChannelProjects(w.chan, d.id, [d], id);
  }

  lemma QuietProjects(w: World, i: nat, l: L.Local, id: nat)
    requires Sound(w) && id in w.pasts && Known(w, i)
    requires l == Project(w, i).(flow := l.flow, past := l.past)
    ensures Project(Embed(w, i, l, []), id) == if id == i then l else Project(w, id)
  {
    assert Of(w.chan, i) + [] == Of(w.chan, i);
    EmbedProjects(w, i, l, [], id);
  }

  lemma DrainOneOfOne(f: Flow, d: DataIn, max: nat)
    ensures var (g, back) := Offer(f, d, max);
            && DrainOne(Some(f), [d], max) == (Some(g), if back.Some? then [back.value] else [])
  {
    var (g, back) := Offer(f, d, max);
    if back.Some? {
      assert [back.value] + [d][1..] == [back.value];
    }
  }

  /** Ingesting another flow's message leaves this flow's share as it is. */
  lemma OtherIngestProjects(w: World, id: nat, cfg: Config)
    requires Sound(w) && id in w.pasts
    requires w.chan != [] && w.bytes < MAX_BACKLOG_BYTES && w.chan[0].id != id
    ensures Project(IngestHead(w, cfg), id) == Project(w, id)
  {
    var d, max := w.chan[0], MaxPending(cfg);
    var (t, back) := TryHandle(w.t, d, max);
    TryHandleIsLocal(w.t, d, max, id);
    OfAppend(w.queue, [d], id);
    if back.Some? { OfAppend(w.queue, [back.value], id); }
    assert Of(w.chan, id) == Of(w.chan[1..], id);
    assert Of(w.queue, id) + [] == Of(w.queue, id);
  }

  lemma OwnIngestProjects(w: World, id: nat, cfg: Config)
    requires Sound(w) && id in w.pasts
    requires w.chan != [] && w.bytes < MAX_BACKLOG_BYTES && w.chan[0].id == id
    ensures Project(IngestHead(w, cfg), id) == L.Next(Project(w, id), L.Step.Ingest, id, cfg)
  {
    var d, max := w.chan[0], MaxPending(cfg);
    assert Of(w.chan, id)[0] == d && Of(w.chan, id)[1..] == Of(w.chan[1..], id);
    OfEmpty(w.queue, id);
    if id in w.blocked {
      OfAppend(w.queue, [d], id);
    } else {
      var (t, back) := TryHandle(w.t, d, max);
      TryHandleIsLocal(w.t, d, max, id);
      if id in w.t.tcp { DrainOneOfOne(w.t.tcp[id], d, max); }
      if back.Some? { OfAppend(w.queue, [back.value], id); }
    }
  }

  lemma IngestProjects(w: World, id: nat, cfg: Config)
    requires Sound(w) && id in w.pasts
    ensures Project(IngestHead(w, cfg), id) == L.Next(Project(w, id), Localise(w, Ingest, id), id, cfg)
  {
    if w.chan != [] && w.bytes < MAX_BACKLOG_BYTES {
      if w.chan[0].id == id {
        OwnIngestProjects(w, id, cfg);
      } else {
        OtherIngestProjects(w, id, cfg);
      }
    }
  }

  lemma DrainProjects(w: World, id: nat, cfg: Config)
    requires Sound(w) && id in w.pasts
    ensures Project(DrainAll(w, cfg), id) == L.Next(Project(w, id), L.DrainPass, id, cfg)
  {
    if w.queue != [] {
      DrainIsIsolated(w.t, w.queue, {}, MaxPending(cfg), id);
    }
  }

  /** Resetting a set of flows, as one flow sees it. */
  lemma ResetProjects(w: World, ids: set<nat>, id: nat)
    requires id in w.pasts && id in w.writers
    ensures var l := Project(w, id);
            Project(ResetAll(w, ids), id) ==
              if id in ids then
                l.(flow := if l.flow.Some? then Some(Reset(l.flow.value)) else None, back := [],
                   past := l.past.(lost := true))
              else l
  {
    OfWithout(w.queue, ids, id);
  }

  lemma ReapProjects(w: World, id: nat, cfg: Config)
    requires Sound(w) && id in w.pasts
    ensures Project(Reap(w), id) == L.Next(Project(w, id), L.ReapPass, id, cfg)
  {
    var w1 := ResetAll(w, StalledIds(w));
    ResetProjects(w, StalledIds(w), id);
    ResetProjects(w1, WedgedIds(w1), id);
    OfEmpty(w.queue, id);
  }

  /** What a reap does to one flow, in terms of the two selections made in the state before it. */
  lemma ReapSelects(w: World, id: nat, cfg: Config)
    requires Sound(w) && id in w.t.tcp
    ensures var w' := Reap(w);
            && id in w'.t.tcp
            && (if id in StalledIds(w) || id in WedgedIds(w)
                then w'.t.tcp[id] == Reset(w.t.tcp[id]) && Of(w'.queue, id) == []
                else w'.t.tcp[id] == w.t.tcp[id] && Of(w'.queue, id) == Of(w.queue, id))
  {
    ReapProjects(w, id, cfg);
    var l, l' := Project(w, id), Project(Reap(w), id);
    OfEmpty(w.queue, id);
    assert id in StalledIds(w) || id in WedgedIds(w) <==>
           Stalled(w.t.tcp[id].watch, w.now) || (l.back != [] && Wedged(l.flow, l.now));
  }

  lemma ServiceProjects(w: World, i: nat, env: Env, id: nat, cfg: Config)
    requires Sound(w) && id in w.pasts
    ensures Project(Step(w, ServicePass(i, env), cfg), id)
         == L.Next(Project(w, id), Localise(w, ServicePass(i, env), id), id, cfg)
  {
    if Known(w, i) {
      L.ServiceIsQuiet(Project(w, i), env, cfg);
      QuietProjects(w, i, L.ServiceNext(Project(w, i), env, cfg), id);
    }
  }

  lemma NetworkProjects(w: World, i: nat, n: nat, st: TcpSt, id: nat, cfg: Config)
    requires Sound(w) && id in w.pasts
    ensures Project(Step(w, Network(i, n, st), cfg), id)
         == L.Next(Project(w, id), Localise(w, Network(i, n, st), id), id, cfg)
  {
    if Known(w, i) { QuietProjects(w, i, L.NetworkNext(Project(w, i), n, st), id); }
  }

  lemma StepKeepsPasts(w: World, e: Event, id: nat, cfg: Config)
    requires Sound(w) && id in w.pasts
    ensures id in Step(w, e, cfg).pasts && id in Step(w, e, cfg).writers
  {
  }

  /**
  Isolation over runs, one step: what any event does to a flow's share of the
  process is a step of that flow's private machine from that share alone.
  */
  lemma StepProjects(w: World, e: Event, id: nat, cfg: Config)
    requires Sound(w) && id in w.pasts
    ensures id in Step(w, e, cfg).pasts && id in Step(w, e, cfg).writers
    ensures Project(Step(w, e, cfg), id) == L.Next(Project(w, id), Localise(w, e, id), id, cfg)
  {
    StepKeepsPasts(w, e, id, cfg);
    match e
    case Open => assert Of(w.chan, id) + [] == Of(w.chan, id) && w.chan + [] == w.chan;
    case OpenUdp =>
    case Advance(_) =>
    case Write(i, s) => if Known(w, i) { WriteProjects(w, i, s, id); }
    case CloseWrite(i) => if i in w.pasts { CloseProjects(w, i, id, cfg); }
    case SendUdp(d) => SendUdpProjects(w, d, id, cfg);
    case Ingest => IngestProjects(w, id, cfg);
    case DrainPass => DrainProjects(w, id, cfg);
    case ServicePass(i, env) => ServiceProjects(w, i, env, id, cfg);
    case Network(i, n, st) => NetworkProjects(w, i, n, st, id, cfg);
    case ReapPass => ReapProjects(w, id, cfg);
  }
}
