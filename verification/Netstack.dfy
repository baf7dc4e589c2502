/**
`NetStack` and `Backlog` as the objects the run loop updates in place. Every
method is proved against the functions the rest of the model reasons about.
*/
module Netstack {
  import opened Common
  import opened Liveness
  import opened FlowState
  import opened Backlog

  const MAX_APP_INGEST_PER_TICK := 512
  const MAX_INGEST_PER_TICK := 512
  const MAX_CMD_PER_TICK := 64

  class BacklogQueue {
    var queue: seq<DataIn>
    var blocked: set<nat>
    var bytes: nat

    ghost predicate Valid()
      reads this
    {
      blocked == Ids(queue) && bytes == Total(queue)
    }

    constructor ()
      ensures Valid() && queue == []
    {
      queue, blocked, bytes := [], {}, 0;
    }

    method Push(d: DataIn)
      requires Valid()
      modifies this
      ensures Valid() && queue == old(queue) + [d]
    {
      TotalAppend(queue, [d]);
      IdsSnoc(queue, d);
      bytes := bytes + Size(d);
      blocked := blocked + {d.id};
      queue := queue + [d];
    }

    /** Drops every entry of one flow and recounts the rest. */
    method Purge(id: nat)
      requires Valid()
      modifies this
      ensures Valid() && queue == Without(old(queue), {id})
    {
      var all := queue;
      var kept, i, total := [], 0, 0;
      while i < |all|
        invariant i <= |all| && blocked == old(blocked)
        invariant kept == Without(all[..i], {id}) && total == Total(kept)
      {
        assert all[..i + 1] == all[..i] + [all[i]];
        WithoutAppend(all[..i], [all[i]], {id});
        if all[i].id != id {
          TotalAppend(kept, [all[i]]);
          kept := kept + [all[i]];
          total := total + Size(all[i]);
        }
        i := i + 1;
      }
      assert all[..i] == all;
      IdsWithout(all, {id});
      blocked := blocked - {id};
      queue, bytes := kept, total;
    }
  }

  lemma {:induction false} WithoutAppend(a: seq<DataIn>, b: seq<DataIn>, ids: set<nat>)
    ensures Without(a + b, ids) == Without(a, ids) + Without(b, ids)
  {
    if a == [] {
      assert a + b == b;
    } else {
      WithoutAppend(a[1..], b, ids);
      TailOfAppend(a, b);
      Assoc(if a[0].id in ids then [] else [a[0]], Without(a[1..], ids), Without(b, ids));
    }
  }

  /** One entry of a pass: what is kept of it goes behind what was kept before. */
  lemma DrainTurn(t: Tables, q: seq<DataIn>, blocked: set<nat>, max: nat, kept: seq<DataIn>)
    requires q != []
    ensures var (t1, back) := TryHandle(t, q[0], max);
            var r := Drain(t, q, blocked, max);
            if q[0].id in blocked then
              var n := Drain(t, q[1..], blocked, max);
              r.0 == n.0 && kept + r.1 == (kept + [q[0]]) + n.1
            else if back.None? then r == Drain(t1, q[1..], blocked, max)
            else
              var n := Drain(t1, q[1..], blocked + {q[0].id}, max);
              r.0 == n.0 && kept + r.1 == (kept + [back.value]) + n.1
  {
    var (t1, back) := TryHandle(t, q[0], max);
    if q[0].id in blocked {
      Assoc(kept, [q[0]], Drain(t, q[1..], blocked, max).1);
    } else if back.Some? {
      Assoc(kept, [back.value], Drain(t1, q[1..], blocked + {q[0].id}, max).1);
    }
  }

  lemma {:induction false} WithoutNothing(q: seq<DataIn>)
    ensures Without(q, {}) == q
  {
    if q != [] {
      WithoutNothing(q[1..]);
    }
  }

  /** Purging flows one at a time purges them together. */
  lemma {:induction false} WithoutTwice(q: seq<DataIn>, a: set<nat>, b: set<nat>)
    ensures Without(Without(q, a), b) == Without(q, a + b)
  {
    if q != [] {
      WithoutTwice(q[1..], a, b);
      WithoutAppend(if q[0].id in a then [] else [q[0]], Without(q[1..], a), b);
    }
  }

  class NetStack {
    var tcp: map<nat, Flow>
    var udp: set<nat>
    var nextId: nat
    const cfg: Config

    ghost function View(): Tables
      reads this
    {
      Tables(tcp, udp)
    }

    constructor (cfg: Config)
      ensures tcp == map[] && udp == {} && nextId == 1 && this.cfg == cfg
    {
      tcp, udp, nextId, this.cfg := map[], {}, 1, cfg;
    }

    /** `handle_cmd` for a connection that starts: the next id, and its record. */
    method OpenTcp(now: nat) returns (id: nat)
      modifies this`tcp, this`nextId
      ensures id == old(nextId) && nextId == old(nextId) + 1 && tcp == old(tcp)[id := NewFlow(now, cfg)]
    {
      id := nextId;
      nextId := nextId + 1;
      tcp := tcp[id := NewFlow(now, cfg)];
    }

    /** The same for a datagram socket; both draw their ids from one counter. */
    method OpenUdp() returns (id: nat)
      modifies this`udp, this`nextId
      ensures id == old(nextId) && nextId == old(nextId) + 1 && udp == old(udp) + {id}
    {
      id := nextId;
      nextId := nextId + 1;
      udp := udp + {id};
    }

    /** Returns the part of the message that must wait. */
    method TryHandleData(d: DataIn) returns (back: Option<DataIn>)
      modifies this`tcp, this`udp
      ensures (View(), back) == TryHandle(old(View()), d, MaxPending(cfg))
    {
      back := None;
      match d {
        case Tcp(id, data) =>
          if id in tcp {
            var max := MaxPending(cfg);
            if |tcp[id].pending| >= max {
              assert tcp[id := tcp[id]] == tcp;
              return Some(d);
            }
            var space := max - |tcp[id].pending|;
            if |data| <= space {
              tcp := tcp[id := tcp[id].(pending := tcp[id].pending + data)];
            } else {
              tcp := tcp[id := tcp[id].(pending := tcp[id].pending + data[..space])];
              back := Some(Tcp(id, data[space..]));
            }
          }
        case TcpClose(id) =>
          if id in tcp {
            tcp := tcp[id := tcp[id].(halfClosed := true)];
          }
        case Udp(_, _) =>
        case UdpClose(id) => udp := udp - {id};
      }
    }

    /** Places one message, behind its own flow's backlog when there is one. */
    method Ingest(backlog: BacklogQueue, d: DataIn)
      requires backlog.Valid()
      modifies this`tcp, this`udp, backlog
      ensures backlog.Valid()
      ensures var max := MaxPending(cfg);
              if d.id in old(backlog.blocked) then
                View() == old(View()) && backlog.queue == old(backlog.queue) + [d]
              else
                var (t, back) := TryHandle(old(View()), d, max);
                View() == t && backlog.queue == old(backlog.queue) + (if back.Some? then [back.value] else [])
    {
      if d.id in backlog.blocked {
        backlog.Push(d);
        return;
      }
      var back := TryHandleData(d);
      if back.Some? {
        backlog.Push(back.value);
      }
    }

    method DrainBacklog(backlog: BacklogQueue)
      requires backlog.Valid()
      modifies this`tcp, this`udp, backlog
      ensures backlog.Valid()
      ensures (View(), backlog.queue) == Drain(old(View()), old(backlog.queue), {}, MaxPending(cfg))
    {
      if backlog.queue == [] {
        return;
      }
      var kept, blocked, bytes := [], {}, 0;
      ghost var start := Drain(View(), backlog.queue, {}, MaxPending(cfg));
      while backlog.queue != []
        invariant blocked == Ids(kept) && bytes == Total(kept)
        invariant Drain(View(), backlog.queue, blocked, MaxPending(cfg)).0 == start.0
        invariant kept + Drain(View(), backlog.queue, blocked, MaxPending(cfg)).1 == start.1
        decreases |backlog.queue|
      {
        var d := backlog.queue[0];
        DrainTurn(View(), backlog.queue, blocked, MaxPending(cfg), kept);
        backlog.queue := backlog.queue[1..];
        if d.id in blocked {
          TotalAppend(kept, [d]);
          IdsSnoc(kept, d);
          bytes := bytes + Size(d);
          kept := kept + [d];
          continue;
        }
        ghost var t := View();
        var back := TryHandleData(d);
        if back.Some? {
          TryHandleIsLocal(t, d, MaxPending(cfg), d.id);
          TotalAppend(kept, [back.value]);
          IdsSnoc(kept, back.value);
          blocked := blocked + {d.id};
          bytes := bytes + Size(back.value);
          kept := kept + [back.value];
        }
      }
      assert kept + [] == kept;
      backlog.queue, backlog.blocked, backlog.bytes := kept, blocked, bytes;
    }

    /** Both loops of `reap_wedged`: reset every flow of `ids` and purge its entries. */
    method ResetEach(backlog: BacklogQueue, ids: set<nat>)
      requires backlog.Valid()
      modifies this`tcp, backlog
      ensures backlog.Valid()
      ensures tcp == ResetFlows(old(tcp), ids) && backlog.queue == Without(old(backlog.queue), ids)
      ensures tcp.Keys == old(tcp).Keys
      ensures forall id :: id in tcp ==>
                var f := old(tcp)[id];
                tcp[id] == if id !in ids then f else f.(pending := [], credit := f.credit.(closed := true),
                                                        sock := Socket(Closed, f.sock.tx))
      ensures forall id :: Of(backlog.queue, id) == if id in ids then [] else Of(old(backlog.queue), id)
    {
      var todo := ids;
      WithoutNothing(backlog.queue);
      assert ids - todo == {};
      while todo != {}
        invariant todo <= ids && backlog.Valid()
        invariant tcp == ResetFlows(old(tcp), ids - todo)
        invariant backlog.queue == Without(old(backlog.queue), ids - todo)
        decreases todo
      {
        var id :| id in todo;
        if id in tcp {
          tcp := tcp[id := Reset(tcp[id])];
        }
        backlog.Purge(id);
        WithoutTwice(old(backlog.queue), ids - todo, {id});
        assert (ids - todo) + {id} == ids - (todo - {id});
        todo := todo - {id};
      }
      assert ids - todo == ids;
      forall id | true ensures Of(backlog.queue, id) == if id in ids then [] else Of(old(backlog.queue), id) {
        OfWithout(old(backlog.queue), ids, id);
      }
    }

    method ReapWedged(backlog: BacklogQueue, now: nat)
      requires backlog.Valid()
      modifies this`tcp, backlog
      ensures backlog.Valid()
      ensures var stalled := StalledIn(old(tcp), now);
              var tcp1, queue1 := ResetFlows(old(tcp), stalled), Without(old(backlog.queue), stalled);
              var wedged := WedgedIn(tcp1, Ids(queue1), now);
              tcp == ResetFlows(tcp1, wedged) && backlog.queue == Without(queue1, wedged)
    {
      ResetEach(backlog, StalledIn(tcp, now));
      var wedged := WedgedIn(tcp, backlog.blocked, now);
      ResetEach(backlog, wedged);
    }

    /** One iteration of `service_tcp`, on the record in the table. */
    method ServiceFlow(id: nat, env: Env, now: nat)
      requires id in tcp
      modifies this`tcp
      ensures var o := Service(old(tcp)[id], env, now, cfg);
              tcp == if o.Kept? then old(tcp)[id := o.flow] else old(tcp) - {id}
    {
      var serve := BeginPass(id, env, now);
      if serve {
        Serve(id, env, now);
        assert tcp[id] == Served(old(tcp)[id], env, now, cfg);
        WindDown(id, env, now);
      }
    }

    /** Sending, the liveness block, and the flap reset it may ask for. */
    method Serve(id: nat, env: Env, now: nat)
      requires id in tcp
      modifies this`tcp
      ensures var f := Send(old(tcp)[id], env, now, cfg);
              var g := Account(f, env, now, cfg);
              tcp == old(tcp)[id := if Observe(f.watch, PassOf(f, now)).1 then FlapReset(g) else g]
    {
      SendPending(id, env, now);
      var flap := Watchdog(id, env, now);
      if flap {
        ResetFlapping(id);
      }
    }

    /** Reaping, connection set-up and connection failure: the tests an iteration starts with. */
    method BeginPass(id: nat, env: Env, now: nat) returns (serve: bool)
      requires id in tcp
      modifies this`tcp
      ensures match Enter(old(tcp)[id], env, now)
              case Drop => !serve && tcp == old(tcp) - {id}
              case Connecting(f) => !serve && tcp == old(tcp)[id := f]
              case Serve(f) => serve && tcp == old(tcp)[id := f] && f.established && f.watch == old(tcp)[id].watch
    {
      if tcp[id].aborted {
        tcp := tcp - {id};
        return false;
      }
      var state := tcp[id].sock.state;
      if !tcp[id].established && (state == Established || state == CloseWait) {
        tcp := tcp[id := tcp[id].(established := true, respWaiting := false)];
      }
      assert tcp[id := tcp[id]] == tcp;
      if !tcp[id].established && (state == Closed || state == TimeWait) {
        tcp := tcp - {id};
        return false;
      }
      if !tcp[id].established {
        if !tcp[id].respWaiting || env.respClosed || now >= tcp[id].connectDeadline {
          tcp := tcp - {id};
        }
        return false;
      }
      return true;
    }

    /** The send block: the socket takes a prefix of `pending`, and progress is stamped. */
    method SendPending(id: nat, env: Env, now: nat)
      requires id in tcp
      modifies this`tcp
      ensures tcp == old(tcp)[id := Send(old(tcp)[id], env, now, cfg)]
    {
      if tcp[id].pending == [] {
        tcp := tcp[id := tcp[id].(lastProgress := now)];
      } else if tcp[id].sock.MaySend() && |tcp[id].sock.tx| < cfg.txBuf {
        var sent := Min(env.take, Min(|tcp[id].pending|, cfg.txBuf - |tcp[id].sock.tx|));
        if sent > 0 {
          tcp := tcp[id := tcp[id].(sock := tcp[id].sock.(tx := tcp[id].sock.tx + tcp[id].pending[..sent]))];
          tcp := tcp[id := tcp[id].(lastProgress := now)];
          tcp := tcp[id := tcp[id].(acceptedTotal := tcp[id].acceptedTotal + sent)];
          tcp := tcp[id := tcp[id].(pending := tcp[id].pending[sent..])];
        }
      }
    }

    /** The liveness block of `service_tcp` and the credit it publishes. */
    method Watchdog(id: nat, env: Env, now: nat) returns (flap: bool)
      requires id in tcp
      modifies this`tcp
      ensures tcp == old(tcp)[id := Account(old(tcp)[id], env, now, cfg)]
      ensures flap == Observe(old(tcp)[id].watch, PassOf(old(tcp)[id], now)).1
    {
      flap := false;
      var w := tcp[id].watch;
      var queued := |tcp[id].sock.tx|;
      var acked := SatSub(tcp[id].acceptedTotal, queued);
      if queued == 0 || acked > w.ackedHigh {
        w := w.(lastDrain := now, ackedHigh := acked);
        if w.warned {
          w := w.(warned := false);
        }
      } else if !w.warned && SatSub(now, w.lastDrain) >= DRAIN_STALL_WARN {
        w := w.(warned := true);
        if SatSub(now, w.stallMark) >= STALL_FLAP_WINDOW {
          w := w.(stallCount := 0);
        }
        w := w.(stallMark := now, stallCount := w.stallCount + 1);
        if w.stallCount >= STALL_FLAP_LIMIT {
          flap := true;
        }
      }
      w := w.(queueHigh := queued);
      tcp := tcp[id := tcp[id].(watch := w)];
      var budget := Clamp(env.budget, MIN_FLOW_QUEUE_BYTES, Ceiling(cfg));
      tcp := tcp[id := tcp[id].(credit := tcp[id].credit.Publish(acked, budget))];
    }

    /** The flap reset: what is pending is dropped, the writer released, the socket aborted. */
    method ResetFlapping(id: nat)
      requires id in tcp
      modifies this`tcp
      ensures var f := old(tcp)[id];
              tcp == old(tcp)[id := f.(pending := [], watch := f.watch.(stallCount := 0, warned := false),
                                       credit := f.credit.(closed := true), sock := Socket(Closed, f.sock.tx))]
    {
      tcp := tcp[id := tcp[id].(pending := [])];
      tcp := tcp[id := tcp[id].(watch := tcp[id].watch.(stallCount := 0, warned := false))];
      tcp := tcp[id := tcp[id].(credit := tcp[id].credit.(closed := true))];
      tcp := tcp[id := tcp[id].(sock := tcp[id].sock.Abort())];
    }

    /** From the half-close test to the end of the iteration. */
    method WindDown(id: nat, env: Env, now: nat)
      requires id in tcp && tcp[id].established
      modifies this`tcp
      ensures var o := Finish(HalfClose(old(tcp)[id]), env, now, cfg);
              tcp == if o.Kept? then old(tcp)[id := o.flow] else old(tcp) - {id}
      ensures var f := old(tcp)[id];
              var shut := env.appGone || (f.halfClosed && f.pending == []);
              EndsIn(if id in tcp then Kept(tcp[id]) else Removed, f, f.sock.state, shut, env, now, cfg)
    {
      FinishEndsIn(tcp[id], env, now, cfg);
      ShutDrained(id);
      LetGo(id, env, now);
    }

    /** The half-close test. */
    method ShutDrained(id: nat)
      requires id in tcp
      modifies this`tcp
      ensures tcp == old(tcp)[id := HalfClose(old(tcp)[id])]
    {
      if tcp[id].halfClosed && tcp[id].pending == [] {
        tcp := tcp[id := tcp[id].(sock := tcp[id].sock.Close())];
      }
      assert tcp[id := tcp[id]] == tcp;
    }

    /** From the app-gone test to the end of the iteration. */
    method LetGo(id: nat, env: Env, now: nat)
      requires id in tcp && tcp[id].established
      modifies this`tcp
      ensures var o := Finish(old(tcp)[id], env, now, cfg);
              tcp == if o.Kept? then old(tcp)[id := o.flow] else old(tcp) - {id}
    {
      assert tcp[id := tcp[id]] == tcp;
      if env.appGone {
        if tcp[id].orphanedAt.None? {
          tcp := tcp[id := tcp[id].(orphanedAt := Some(now))];
        }
        if env.canRecv || SatSub(now, tcp[id].orphanedAt.value) >= cfg.orphanLinger {
          tcp := tcp[id := tcp[id].(sock := tcp[id].sock.Abort(), aborted := true)];
          return;
        }
        tcp := tcp[id := tcp[id].(sock := tcp[id].sock.Close())];
      }
      Conclude(id);
    }

    /** A socket whose peer has closed is closed; one that is done is removed. */
    method Conclude(id: nat)
      requires id in tcp && tcp[id].established
      modifies this`tcp
      ensures var o := Settle(old(tcp)[id]);
              tcp == if o.Kept? then old(tcp)[id := o.flow] else old(tcp) - {id}
    {
      assert tcp[id := tcp[id]] == tcp;
      if tcp[id].sock.state == CloseWait {
        tcp := tcp[id := tcp[id].(sock := tcp[id].sock.Close())];
      } else if tcp[id].sock.state == TimeWait || tcp[id].sock.state == Closed {
        tcp := tcp - {id};
      }
    }

    /** A pass over every flow; each is served once, from the state it had at the start of the pass. */
    method ServiceTcp(envs: map<nat, Env>, now: nat)
      requires tcp.Keys <= envs.Keys
      modifies this`tcp
      ensures tcp.Keys <= old(tcp.Keys)
      ensures forall id :: id in old(tcp) ==>
                var o := Service(old(tcp)[id], envs[id], now, cfg);
                Lookup(tcp, id) == if o.Kept? then Some(o.flow) else None
    {
      var ids := tcp.Keys;
      while ids != {}
        invariant ids <= tcp.Keys <= old(tcp.Keys)
        invariant forall id :: id in ids ==> tcp[id] == old(tcp)[id]
        invariant forall id :: id in old(tcp) && id !in ids ==>
                    var o := Service(old(tcp)[id], envs[id], now, cfg);
                    Lookup(tcp, id) == if o.Kept? then Some(o.flow) else None
        decreases ids
      {
        var id :| id in ids;
        ServiceFlow(id, envs[id], now);
        ids := ids - {id};
      }
    }
  }
}
