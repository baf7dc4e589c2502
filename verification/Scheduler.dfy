/**
The pass structure of the run loop: three queues, each drained on every pass
with a budget of its own, so none can starve another.
*/
module Scheduler {
  import opened Common
  import opened FlowState
  import opened Backlog
  import opened Netstack
  import Device

  // ----- Queues with a per-pass budget -----

  /** One element in, some out, pass after pass: `arrivals[i]` joins the queue before pass `i` takes up to `budget`. */
  function Rounds<T>(q: seq<T>, arrivals: seq<seq<T>>, budget: nat): (seq<T>, seq<T>)
    decreases |arrivals|
  {
    if arrivals == [] then ([], q)
    else
      var now := q + arrivals[0];
      var n := Min(budget, |now|);
      var (taken, left) := Rounds(now[n..], arrivals[1..], budget);
      (now[..n] + taken, left)
  }

  /** Passes take elements in arrival order and lose none. */
  lemma {:induction false} RoundsAreFifo<T>(q: seq<T>, arrivals: seq<seq<T>>, budget: nat)
    ensures var (taken, left) := Rounds(q, arrivals, budget); taken + left == q + Flatten(arrivals)
    decreases |arrivals|
  {
    if arrivals != [] {
      var now := q + arrivals[0];
      var n := Min(budget, |now|);
      RoundsAreFifo(now[n..], arrivals[1..], budget);
      var (taken, left) := Rounds(now[n..], arrivals[1..], budget);
      assert now[..n] + taken + left == now[..n] + (taken + left);
      assert now[..n] + (now[n..] + Flatten(arrivals[1..])) == now + Flatten(arrivals[1..]);
    }
  }

  /** Each pass takes its whole budget while anything is left. */
  lemma {:induction false} RoundsUseTheirBudget<T>(q: seq<T>, arrivals: seq<seq<T>>, budget: nat)
    ensures |Rounds(q, arrivals, budget).0| >= Min(|q|, |arrivals| * budget)
    decreases |arrivals|
  {
    if arrivals != [] {
      var now := q + arrivals[0];
      var n := Min(budget, |now|);
      RoundsUseTheirBudget(now[n..], arrivals[1..], budget);
      var rest := |arrivals[1..]| * budget;
      assert |arrivals| * budget == (|arrivals[1..]| + 1) * budget == rest + budget;
    }
  }

  /** No starvation: the element at position `k` is taken within `k / budget + 1` passes, whatever else arrives. */
  lemma ServedWithin<T>(q: seq<T>, arrivals: seq<seq<T>>, budget: nat, k: nat)
    requires budget > 0 && k < |q| && |arrivals| >= k / budget + 1
    ensures var (taken, left) := Rounds(q, arrivals, budget); k < |taken| && taken[k] == q[k]
  {
    RoundsAreFifo(q, arrivals, budget);
    RoundsUseTheirBudget(q, arrivals, budget);
    EnoughPasses(|arrivals|, budget, k);
    var (taken, left) := Rounds(q, arrivals, budget);
    assert (taken + left)[k] == (q + Flatten(arrivals))[k];
  }

  lemma EnoughPasses(n: nat, budget: nat, k: nat)
    requires budget > 0 && n >= k / budget + 1
    ensures n * budget > k
  {
    var d := k / budget;
    assert k < (d + 1) * budget;
    assert n * budget == (n - (d + 1)) * budget + (d + 1) * budget;
  }

  // ----- The app queue -----

  /** `ingest` on values. */
  function Place(t: Tables, queue: seq<DataIn>, d: DataIn, max: nat): (Tables, seq<DataIn>) {
    if d.id in Ids(queue) then (t, queue + [d])
    else
      var (t', back) := TryHandle(t, d, max);
      (t', queue + if back.Some? then [back.value] else [])
  }

  /** `drain_app_data`: the tables, the backlog, what is left in the channel, and how many messages moved. */
  datatype Drained = Drained(t: Tables, queue: seq<DataIn>, app: seq<DataIn>, moved: nat)

  function DrainApp(t: Tables, queue: seq<DataIn>, app: seq<DataIn>, budget: nat, max: nat): Drained
    decreases budget
  {
    if budget == 0 || Total(queue) >= MAX_BACKLOG_BYTES || app == [] then Drained(t, queue, app, 0)
    else
      var (t', queue') := Place(t, queue, app[0], max);
      var r := DrainApp(t', queue', app[1..], budget - 1, max);
      r.(moved := r.moved + 1)
  }

  lemma PlaceOnlyAdds(t: Tables, queue: seq<DataIn>, d: DataIn, max: nat)
    ensures Total(queue) <= Total(Place(t, queue, d, max).1)
  {
    TotalAppend(queue, [d]);
    var (t', back) := TryHandle(t, d, max);
    if back.Some? {
      TotalAppend(queue, [back.value]);
    } else {
      assert queue + [] == queue;
    }
  }

  /** A drain moves a prefix of the channel in order, and all its budget unless the memory bound stopped it. */
  lemma {:induction false} DrainAppUsesItsBudget(t: Tables, queue: seq<DataIn>, app: seq<DataIn>, budget: nat, max: nat)
    ensures var r := DrainApp(t, queue, app, budget, max);
            && r.moved <= Min(budget, |app|) && r.app == app[r.moved..]
            && Total(queue) <= Total(r.queue)
            && (Total(r.queue) < MAX_BACKLOG_BYTES ==> r.moved == Min(budget, |app|))
    decreases budget
  {
    if budget > 0 && Total(queue) < MAX_BACKLOG_BYTES && app != [] {
      var (t', queue') := Place(t, queue, app[0], max);
      PlaceOnlyAdds(t, queue, app[0], max);
      DrainAppUsesItsBudget(t', queue', app[1..], budget - 1, max);
    }
  }

  /** One visit of the loop to the app queue: the stack as the rest of the pass left it, and what has arrived since. */
  datatype Visit = Visit(t: Tables, queue: seq<DataIn>, arrivals: seq<DataIn>)

  /** The messages ingested over a run of passes, and what is left, with anything happening to the stack in between. */
  function Visits(app: seq<DataIn>, vs: seq<Visit>, max: nat): (seq<DataIn>, seq<DataIn>)
    decreases |vs|
  {
    if vs == [] then ([], app)
    else
      var now := app + vs[0].arrivals;
      var r := DrainApp(vs[0].t, vs[0].queue, now, MAX_APP_INGEST_PER_TICK, max);
      DrainAppUsesItsBudget(vs[0].t, vs[0].queue, now, MAX_APP_INGEST_PER_TICK, max);
      var (taken, left) := Visits(r.app, vs[1..], max);
      (now[..r.moved] + taken, left)
  }

  /** The backlog ends every visit under its memory bound. */
  ghost predicate UnderCap(app: seq<DataIn>, vs: seq<Visit>, max: nat)
    decreases |vs|
  {
    vs != [] ==>
      var r := DrainApp(vs[0].t, vs[0].queue, app + vs[0].arrivals, MAX_APP_INGEST_PER_TICK, max);
      Total(r.queue) < MAX_BACKLOG_BYTES && UnderCap(r.app, vs[1..], max)
  }

  function Arrivals(vs: seq<Visit>): seq<seq<DataIn>> {
    seq(|vs|, i requires 0 <= i < |vs| => vs[i].arrivals)
  }

  lemma {:induction false} VisitsAreRounds(app: seq<DataIn>, vs: seq<Visit>, max: nat)
    requires UnderCap(app, vs, max)
    ensures Visits(app, vs, max) == Rounds(app, Arrivals(vs), MAX_APP_INGEST_PER_TICK)
    decreases |vs|
  {
    if vs != [] {
      var now := app + vs[0].arrivals;
      DrainAppUsesItsBudget(vs[0].t, vs[0].queue, now, MAX_APP_INGEST_PER_TICK, max);
      var r := DrainApp(vs[0].t, vs[0].queue, now, MAX_APP_INGEST_PER_TICK, max);
      VisitsAreRounds(r.app, vs[1..], max);
      assert Arrivals(vs)[1..] == Arrivals(vs[1..]);
    }
  }

  /**
  While the backlog stays under its memory bound, the app message at position `k`
  is ingested within `k / 512 + 1` passes, in order, whatever the rest of the
  process does and however much arrives in any direction.
  */
  lemma AppIsNeverStarved(app: seq<DataIn>, vs: seq<Visit>, max: nat, k: nat)
    requires UnderCap(app, vs, max) && k < |app| && |vs| >= k / MAX_APP_INGEST_PER_TICK + 1
    ensures var (taken, left) := Visits(app, vs, max); k < |taken| && taken[k] == app[k]
  {
    VisitsAreRounds(app, vs, max);
    ServedWithin(app, Arrivals(vs), MAX_APP_INGEST_PER_TICK, k);
  }

  // ----- The drains, and one pass of the loop -----

  /** The receiving half of a channel. */
  class Receiver<T> {
    var items: seq<T>
    var closed: bool

    method TryRecv() returns (x: Option<T>)
      modifies this`items
      ensures if old(items) == [] then x == None && items == []
              else x == Some(old(items)[0]) && items == old(items)[1..]
    {
      if items == [] {
        return None;
      }
      x := Some(items[0]);
      items := items[1..];
    }
  }

  /** What the loop owns: the stack, its device and its backlog, and the commands it has handled. */
  class Loop {
    const stack: NetStack
    const backlog: BacklogQueue
    const device: Device.StackDevice
    var handled: seq<nat>
    var preferAppData: bool

    constructor (stack: NetStack, backlog: BacklogQueue, device: Device.StackDevice)
      ensures this.stack == stack && this.backlog == backlog && this.device == device
      ensures handled == [] && !preferAppData
    {
      this.stack, this.backlog, this.device := stack, backlog, device;
      handled, preferAppData := [], false;
    }

    method DrainInbound(rx: Receiver<bytes>, budget: nat) returns (moved: nat, done: bool)
      requires device.Valid()
      modifies device`rx, device`arrived, rx`items
      ensures moved == Min(budget, |old(rx.items)|)
      ensures device.Valid() && device.arrived == old(device.arrived) + old(rx.items)[..moved]
      ensures device.rx == old(device.rx) + old(rx.items)[..moved] && rx.items == old(rx.items)[moved..]
      ensures done <==> rx.closed && moved < budget
    {
      moved := 0;
      ghost var all := rx.items;
      while moved < budget
        invariant moved <= Min(budget, |all|) && rx.items == all[moved..]
        invariant device.Valid() && device.rx == old(device.rx) + all[..moved]
        invariant device.arrived == old(device.arrived) + all[..moved]
      {
        var x := rx.TryRecv();
        if x.None? {
          return moved, rx.closed;
        }
        assert all[..moved + 1] == all[..moved] + [x.value];
        device.Arrive(x.value);
        moved := moved + 1;
      }
      return moved, false;
    }

    method DrainCmds(rx: Receiver<nat>, budget: nat) returns (moved: nat, done: bool)
      modifies this`handled, rx`items
      ensures moved == Min(budget, |old(rx.items)|)
      ensures handled == old(handled) + old(rx.items)[..moved] && rx.items == old(rx.items)[moved..]
      ensures done <==> rx.closed && moved < budget
    {
      moved := 0;
      ghost var all := rx.items;
      while moved < budget
        invariant moved <= Min(budget, |all|) && rx.items == all[moved..]
        invariant handled == old(handled) + all[..moved]
      {
        var x := rx.TryRecv();
        if x.None? {
          return moved, rx.closed;
        }
        assert all[..moved + 1] == all[..moved] + [x.value];
        handled := handled + [x.value];
        moved := moved + 1;
      }
      return moved, false;
    }

    method DrainAppData(rx: Receiver<DataIn>, budget: nat) returns (moved: nat, done: bool)
      requires backlog.Valid()
      modifies stack`tcp, stack`udp, backlog, rx`items
      ensures backlog.Valid()
      ensures Drained(stack.View(), backlog.queue, rx.items, moved)
           == DrainApp(old(stack.View()), old(backlog.queue), old(rx.items), budget, MaxPending(stack.cfg))
      ensures done <==> rx.closed && rx.items == [] && moved < budget && backlog.bytes < MAX_BACKLOG_BYTES
    {
      moved := 0;
      ghost var goal := DrainApp(stack.View(), backlog.queue, rx.items, budget, MaxPending(stack.cfg));
      while moved < budget && backlog.bytes < MAX_BACKLOG_BYTES
        invariant moved <= budget && backlog.Valid()
        invariant var r := DrainApp(stack.View(), backlog.queue, rx.items, budget - moved, MaxPending(stack.cfg));
                  goal == r.(moved := r.moved + moved)
      {
        var x := rx.TryRecv();
        if x.None? {
          return moved, rx.closed;
        }
        stack.Ingest(backlog, x.value);
        moved := moved + 1;
      }
      return moved, false;
    }

    /** The drain of the app queue ran into its end. */
    predicate AppDone(rx: Receiver<DataIn>, moved: nat)
      reads backlog, rx
    {
      rx.closed && rx.items == [] && moved < MAX_APP_INGEST_PER_TICK && backlog.bytes < MAX_BACKLOG_BYTES
    }

    /** The three drains of one pass; which of the first two goes first alternates, what they do does not. */
    method DrainQueues(app: Receiver<DataIn>, inbound: Receiver<bytes>, cmds: Receiver<nat>)
      returns (movedApp: nat, movedIn: nat, movedCmd: nat, closed: bool)
      requires backlog.Valid() && device.Valid()
      modifies this`handled, this`preferAppData, device`rx, device`arrived
      modifies stack`tcp, stack`udp, backlog, app`items, inbound`items, cmds`items
      ensures backlog.Valid() && device.Valid() && preferAppData != old(preferAppData)
      ensures Drained(stack.View(), backlog.queue, app.items, movedApp)
           == DrainApp(old(stack.View()), old(backlog.queue), old(app.items), MAX_APP_INGEST_PER_TICK,
                       MaxPending(stack.cfg))
      ensures movedIn == Min(MAX_INGEST_PER_TICK, |old(inbound.items)|)
      ensures device.rx == old(device.rx) + old(inbound.items)[..movedIn]
      ensures inbound.items == old(inbound.items)[movedIn..]
      ensures movedCmd == Min(MAX_CMD_PER_TICK, |old(cmds.items)|)
      ensures handled == old(handled) + old(cmds.items)[..movedCmd] && cmds.items == old(cmds.items)[movedCmd..]
      ensures closed <==> || AppDone(app, movedApp)
                          || (inbound.closed && movedIn < MAX_INGEST_PER_TICK)
                          || (cmds.closed && movedCmd < MAX_CMD_PER_TICK)
    {
      movedApp, movedIn, movedCmd, closed := 0, 0, 0, false;
      var first := if preferAppData then 1 else 0;
      for pass := 0 to 2
        invariant backlog.Valid() && device.Valid() && preferAppData == old(preferAppData) && handled == old(handled)
        invariant cmds.items == old(cmds.items)
        invariant closed <==> || (first < pass && AppDone(app, movedApp))
                              || (1 - first < pass && inbound.closed && movedIn < MAX_INGEST_PER_TICK)
        invariant if first < pass
                  then Drained(stack.View(), backlog.queue, app.items, movedApp)
                    == DrainApp(old(stack.View()), old(backlog.queue), old(app.items), MAX_APP_INGEST_PER_TICK,
                                MaxPending(stack.cfg))
                  else stack.View() == old(stack.View()) && backlog.queue == old(backlog.queue)
                       && app.items == old(app.items) && movedApp == 0
        invariant if 1 - first < pass
                  then && movedIn == Min(MAX_INGEST_PER_TICK, |old(inbound.items)|)
                       && device.rx == old(device.rx) + old(inbound.items)[..movedIn]
                       && inbound.items == old(inbound.items)[movedIn..]
                  else device.rx == old(device.rx) && inbound.items == old(inbound.items) && movedIn == 0
      {
        if first == pass {
          var n, done := DrainAppData(app, MAX_APP_INGEST_PER_TICK);
          movedApp := movedApp + n;
          closed := closed || done;
        } else {
          var n, done := DrainInbound(inbound, MAX_INGEST_PER_TICK);
          movedIn := movedIn + n;
          closed := closed || done;
        }
      }
      var n, done := DrainCmds(cmds, MAX_CMD_PER_TICK);
      movedCmd := movedCmd + n;
      closed := closed || done;
      preferAppData := !preferAppData;
    }
  }
}
