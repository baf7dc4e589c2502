/**
How far other flows can reach one flow: only through the shared memory bound of
the backlog, and exactly when it is full. A run in which that never holds the
flow back leaves it as if the others had done nothing.
*/
module Isolation {
  import opened FlowState
  import opened Backlog
  import opened World
  import opened Upload
  import L = LocalFlow

  // ----- The shared bound -----

  /**
  In every reachable state a flow's message at the head of the channel is held
  back if and only if the backlog has reached its memory bound, whoever filled it.
  */
  lemma HeldBackIffFull(es: seq<Event>, id: nat, cfg: Config)
    requires var w := Run(es, cfg); id in w.pasts && w.chan != [] && w.chan[0].id == id
    ensures var w := Run(es, cfg);
            var w' := Step(w, Ingest, cfg);
            && id in w.writers && id in w'.writers && id in w'.pasts
            && (Project(w', id) == Project(w, id) <==> w.bytes >= MAX_BACKLOG_BYTES)
            && (w.bytes < MAX_BACKLOG_BYTES ==> Of(w'.chan, id) == Of(w.chan, id)[1..])
  {
    var w := Run(es, cfg);
    RunIsSound(es, cfg);
    HeadIsOwn(w.chan, id);
    if w.bytes < MAX_BACKLOG_BYTES {
      StepProjects(w, Ingest, id, cfg);
      L.IngestTakesOne(Project(w, id), id, cfg);
    }
  }

  lemma HeadIsOwn(chan: seq<DataIn>, id: nat)
    requires chan != [] && chan[0].id == id
    ensures Of(chan, id) != [] && Of(chan, id)[0] == chan[0]
  {
  }

  // ----- The same run without the others -----

  /** The events that open flows, pass for everyone, or concern this flow. */
  predicate Concerns(w: World, e: Event, id: nat) {
    match e
    case Write(i, _) => i == id
    case CloseWrite(i) => i == id
    case SendUdp(d) => d.id == id
    case Ingest => w.chan != [] && w.chan[0].id == id
    case ServicePass(i, _) => i == id
    case Network(i, _, _) => i == id
    case _ => true
  }

  /** A run with every event of every other flow deleted; flows are still opened, so ids stay what they were. */
  ghost function Alone(es: seq<Event>, id: nat, cfg: Config): seq<Event>
    decreases |es|
  {
    if es == [] then []
    else
      var prefix, e := es[..|es| - 1], es[|es| - 1];
      Alone(prefix, id, cfg) + if Concerns(Run(prefix, cfg), e, id) then [e] else []
  }

  /** No message of the flow is ever held back by the memory bound. */
  ghost predicate NeverHeld(es: seq<Event>, id: nat, cfg: Config)
    decreases |es|
  {
    es != [] ==>
      var prefix, e := es[..|es| - 1], es[|es| - 1];
      var w := Run(prefix, cfg);
      && NeverHeld(prefix, id, cfg)
      && (e.Ingest? && w.chan != [] && w.chan[0].id == id ==> w.bytes < MAX_BACKLOG_BYTES)
  }

  /** Every message in the process is this flow's. */
  ghost predicate OnlyOwn(v: World, id: nat) {
    (forall d :: d in v.chan ==> d.id == id) && (forall d :: d in v.queue ==> d.id == id)
  }

  /** `v` is `w` with the others silent. */
  ghost predicate Mirrors(w: World, v: World, id: nat) {
    && Sound(w) && Sound(v) && w.nextId == v.nextId && w.now == v.now && OnlyOwn(v, id)
    && (id in w.pasts <==> id in v.pasts)
    && (id in w.pasts ==> Project(w, id) == Project(v, id))
  }

  lemma {:induction false} OwnIsAll(q: seq<DataIn>, id: nat)
    requires forall d :: d in q ==> d.id == id
    ensures Of(q, id) == q
  {
    if q != [] {
      assert q[0] in q;
      OwnIsAll(q[1..], id);
    }
  }

  lemma {:induction false} OwnIsLess(q: seq<DataIn>, id: nat)
    ensures Total(Of(q, id)) <= Total(q)
  {
    if q != [] {
      OwnIsLess(q[1..], id);
      TotalAppend(if q[0].id == id then [q[0]] else [], Of(q[1..], id));
    }
  }

  lemma OwnIngest(v: World, id: nat, cfg: Config)
    requires Sound(v) && OnlyOwn(v, id)
    ensures OnlyOwn(IngestHead(v, cfg), id)
  {
    if v.chan != [] && v.bytes < MAX_BACKLOG_BYTES {
      assert v.chan[0] in v.chan;
      assert forall d :: d in v.chan[1..] ==> d in v.chan;
      TryHandleIsLocal(v.t, v.chan[0], MaxPending(cfg), id);
    }
  }

  lemma OwnDrain(v: World, id: nat, cfg: Config)
    requires Sound(v) && OnlyOwn(v, id)
    ensures OnlyOwn(DrainAll(v, cfg), id)
  {
    if v.queue != [] {
      DrainKeepsIds(v.t, v.queue, {}, MaxPending(cfg));
      var kept := Drain(v.t, v.queue, {}, MaxPending(cfg)).1;
      forall d | d in kept ensures d.id == id {
        assert d.id in Ids(kept);
      }
    }
  }

  lemma OwnReset(v: World, ids: set<nat>, id: nat)
    requires OnlyOwn(v, id)
    ensures OnlyOwn(ResetAll(v, ids), id)
  {
    IdsWithout(v.queue, ids);
    forall d | d in Without(v.queue, ids) ensures d.id == id {
      assert d.id in Ids(Without(v.queue, ids));
    }
  }

  lemma OwnStays(v: World, e: Event, id: nat, cfg: Config)
    requires Sound(v) && OnlyOwn(v, id) && Concerns(v, e, id)
    ensures OnlyOwn(Step(v, e, cfg), id)
  {
    match e
    case Ingest => OwnIngest(v, id, cfg);
    case DrainPass => OwnDrain(v, id, cfg);
    case ReapPass =>
      OwnReset(v, StalledIds(v), id);
      OwnReset(ResetAll(v, StalledIds(v)), WedgedIds(ResetAll(v, StalledIds(v))), id);
    case _ =>
  }

  /** Ids and the clock depend on the events alone, and only an opening makes a flow known. */
  lemma CountsAgree(w: World, v: World, e: Event, id: nat, cfg: Config)
    requires Sound(w) && Sound(v) && w.nextId == v.nextId && w.now == v.now && (id in w.pasts <==> id in v.pasts)
    ensures var w', v' := Step(w, e, cfg), Step(v, e, cfg);
            w'.nextId == v'.nextId && w'.now == v'.now && (id in w'.pasts <==> id in v'.pasts)
  {
    StepCounts(w, e, id, cfg);
    StepCounts(v, e, id, cfg);
  }

  lemma StepCounts(w: World, e: Event, id: nat, cfg: Config)
    requires Sound(w)
    ensures var w' := Step(w, e, cfg);
            && w'.nextId == w.nextId + (if e.Open? || e.OpenUdp? then 1 else 0)
            && w'.now == w.now + (if e.Advance? then e.dt else 0)
            && (id in w'.pasts <==> id in w.pasts || (e.Open? && id == w.nextId))
  {
  }

  lemma SilentEvent(w: World, e: Event, id: nat, cfg: Config)
    requires Sound(w) && !Concerns(w, e, id)
    ensures var w' := Step(w, e, cfg); w'.nextId == w.nextId && w'.now == w.now && (id in w'.pasts <==> id in w.pasts)
    ensures Localise(w, e, id) == L.Stutter
  {
  }

  lemma SameHead(w: World, v: World, id: nat)
    requires Mirrors(w, v, id) && id in w.pasts && w.chan != [] && w.chan[0].id == id
    ensures v.chan != [] && v.chan[0] == w.chan[0] && v.bytes <= w.bytes
  {
    OwnIsAll(v.chan, id);
    OwnIsAll(v.queue, id);
    OwnIsLess(w.queue, id);
  }

  lemma SameLocalEvent(w: World, v: World, e: Event, id: nat)
    requires Mirrors(w, v, id) && id in w.pasts && Concerns(w, e, id)
    requires e.Ingest? ==> w.bytes < MAX_BACKLOG_BYTES
    ensures Localise(w, e, id) == Localise(v, e, id) && Concerns(v, e, id)
  {
    if e.Ingest? {
      SameHead(w, v, id);
    }
  }

  lemma BornAlike(w: World, v: World, id: nat, cfg: Config)
    requires Mirrors(w, v, id) && id == w.nextId
    ensures id in Step(w, Open, cfg).writers && id in Step(v, Open, cfg).writers
    ensures Project(Step(w, Open, cfg), id) == Project(Step(v, Open, cfg), id)
  {
    OpenProjects(w, cfg);
    OpenProjects(v, cfg);
  }

  lemma KeptEventMirrors(w: World, v: World, e: Event, id: nat, cfg: Config)
    requires Mirrors(w, v, id) && id in w.pasts && Concerns(w, e, id)
    requires e.Ingest? ==> w.bytes < MAX_BACKLOG_BYTES
    ensures Mirrors(Step(w, e, cfg), Step(v, e, cfg), id)
  {
    SameLocalEvent(w, v, e, id);
    StepKeepsSound(w, e, cfg);
    StepKeepsSound(v, e, cfg);
    OwnStays(v, e, id, cfg);
    CountsAgree(w, v, e, id, cfg);
    StepProjects(w, e, id, cfg);
    StepProjects(v, e, id, cfg);
  }

  lemma UnbornMirrors(w: World, v: World, e: Event, id: nat, cfg: Config)
    requires Mirrors(w, v, id) && id !in w.pasts && Concerns(v, e, id)
    ensures Mirrors(Step(w, e, cfg), Step(v, e, cfg), id)
  {
    StepKeepsSound(w, e, cfg);
    StepKeepsSound(v, e, cfg);
    OwnStays(v, e, id, cfg);
    CountsAgree(w, v, e, id, cfg);
    if id in Step(w, e, cfg).pasts {
      NewFlowsAreOpened(w, e, cfg, id);
      BornAlike(w, v, id, cfg);
    }
  }

  lemma DroppedEventMirrors(w: World, v: World, e: Event, id: nat, cfg: Config)
    requires Mirrors(w, v, id) && !Concerns(w, e, id)
    ensures Mirrors(Step(w, e, cfg), v, id)
  {
    StepKeepsSound(w, e, cfg);
    SilentEvent(w, e, id, cfg);
    if id in w.pasts {
      StepProjects(w, e, id, cfg);
    }
  }

  /** An id that is not a flow's yet and is still to be given out has no message anywhere. */
  lemma NoMessageBeforeBirth(w: World, id: nat)
    requires Sound(w) && id >= w.nextId && w.chan != []
    ensures w.chan[0].id != id
  {
    assert w.chan[0] in w.chan;
  }

  lemma {:induction false} AloneMirrors(es: seq<Event>, id: nat, cfg: Config)
    requires NeverHeld(es, id, cfg)
    requires id in Run(es, cfg).pasts || id >= Run(es, cfg).nextId
    ensures Mirrors(Run(es, cfg), Run(Alone(es, id, cfg), cfg), id)
    decreases |es|
  {
    if es != [] {
      var prefix, e := es[..|es| - 1], es[|es| - 1];
      var w, v := Run(prefix, cfg), Run(Alone(prefix, id, cfg), cfg);
      RunIsSound(prefix, cfg);
      StillToCome(w, e, id, cfg);
      AloneMirrors(prefix, id, cfg);
      if Concerns(w, e, id) {
        RunSnoc(Alone(prefix, id, cfg), e, cfg);
        if id in w.pasts {
          KeptEventMirrors(w, v, e, id, cfg);
        } else {
          if e.Ingest? {
            NoMessageBeforeBirth(w, id);
          }
          UnbornMirrors(w, v, e, id, cfg);
        }
      } else {
        assert Alone(es, id, cfg) == Alone(prefix, id, cfg);
        DroppedEventMirrors(w, v, e, id, cfg);
      }
    }
  }

  /** A flow known, or still to come, after an event was known or still to come before it. */
  lemma StillToCome(w: World, e: Event, id: nat, cfg: Config)
    requires Sound(w) && (id in Step(w, e, cfg).pasts || id >= Step(w, e, cfg).nextId)
    ensures id in w.pasts || id >= w.nextId
  {
  }

  /**
  Isolation: deleting every event of every other flow from any run in which the
  memory bound never holds this flow back leaves its whole state, its history and
  its place in the queues the same.
  */
  lemma OthersMightAsWellBeSilent(es: seq<Event>, id: nat, cfg: Config)
    requires id in Run(es, cfg).pasts && NeverHeld(es, id, cfg)
    ensures id in Run(es, cfg).writers
    ensures id in Run(Alone(es, id, cfg), cfg).pasts && id in Run(Alone(es, id, cfg), cfg).writers
    ensures Project(Run(Alone(es, id, cfg), cfg), id) == Project(Run(es, cfg), id)
  {
    AloneMirrors(es, id, cfg);
  }

  // ----- The ordinary regime -----

  /** No write was ever let through by `close` or the deadline, and none was as long as `pending` may be. */
  ghost predicate Ordinary(w: World, cfg: Config) {
    forall id :: id in w.pasts ==> !w.pasts[id].forced && w.pasts[id].largest < MaxPending(cfg)
  }

  lemma OrdinaryBefore(w: World, e: Event, cfg: Config)
    requires Sound(w) && Ordinary(Step(w, e, cfg), cfg)
    ensures Ordinary(w, cfg)
  {
    forall id | id in w.pasts ensures !w.pasts[id].forced && w.pasts[id].largest < MaxPending(cfg) {
      StepProjects(w, e, id, cfg);
      L.WritesAreRemembered(Project(w, id), Localise(w, e, id), id, cfg);
    }
  }

  lemma HeadHasRoom(es: seq<Event>, cfg: Config)
    requires var w := Run(es, cfg); Ordinary(w, cfg) && w.queue == [] && w.chan != [] && w.chan[0].id in w.t.tcp
    ensures var w := Run(es, cfg);
            w.chan[0].Tcp? ==> |w.t.tcp[w.chan[0].id].pending| + |w.chan[0].data| < MaxPending(cfg)
  {
    var w := Run(es, cfg);
    var id := w.chan[0].id;
    RunIsSound(es, cfg);
    RunInv(es, id, cfg);
    HeadIsOwn(w.chan, id);
    L.RoomForTheHead(Project(w, id), cfg);
  }

  lemma IngestQueuesNothing(w: World, cfg: Config)
    requires Sound(w) && w.queue == []
    requires w.chan != [] && w.chan[0].Tcp? && w.chan[0].id in w.t.tcp ==>
               |w.t.tcp[w.chan[0].id].pending| + |w.chan[0].data| < MaxPending(cfg)
    ensures IngestHead(w, cfg).queue == []
  {
  }

  /**
  The two halves of the upload path together: as long as the admission gate is
  not forced and no write is as long as `pending` may be, the backlog is never
  used at all, in any reachable state, whatever the peers do.
  */
  lemma {:induction false} OrdinaryRunsNeedNoBacklog(es: seq<Event>, cfg: Config)
    requires Ordinary(Run(es, cfg), cfg)
    ensures Run(es, cfg).queue == []
    decreases |es|
  {
    if es != [] {
      var prefix, e := es[..|es| - 1], es[|es| - 1];
      var w := Run(prefix, cfg);
      RunIsSound(prefix, cfg);
      OrdinaryBefore(w, e, cfg);
      OrdinaryRunsNeedNoBacklog(prefix, cfg);
      if e.Ingest? {
        if w.chan != [] && w.chan[0].id in w.t.tcp {
          HeadHasRoom(prefix, cfg);
        }
        IngestQueuesNothing(w, cfg);
      }
    }
  }

  lemma {:induction false} OrdinaryRunsHoldNothingBack(es: seq<Event>, id: nat, cfg: Config)
    requires Ordinary(Run(es, cfg), cfg)
    ensures NeverHeld(es, id, cfg)
    decreases |es|
  {
    if es != [] {
      var prefix := es[..|es| - 1];
      RunIsSound(prefix, cfg);
      OrdinaryBefore(Run(prefix, cfg), es[|es| - 1], cfg);
      OrdinaryRunsHoldNothingBack(prefix, id, cfg);
      OrdinaryRunsNeedNoBacklog(prefix, cfg);
    }
  }

  /** So in ordinary runs flows are isolated outright: deleting every event of the others changes nothing for one. */
  lemma OrdinaryRunsAreIsolated(es: seq<Event>, id: nat, cfg: Config)
    requires id in Run(es, cfg).pasts && Ordinary(Run(es, cfg), cfg)
    ensures id in Run(es, cfg).writers
    ensures id in Run(Alone(es, id, cfg), cfg).pasts && id in Run(Alone(es, id, cfg), cfg).writers
    ensures Project(Run(Alone(es, id, cfg), cfg), id) == Project(Run(es, cfg), id)
  {
    OrdinaryRunsHoldNothingBack(es, id, cfg);
    OthersMightAsWellBeSilent(es, id, cfg);
  }
}
