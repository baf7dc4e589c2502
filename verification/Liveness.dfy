/**
The stall detector of one TCP flow: what `service_tcp` records about
acknowledged bytes on every pass, against the plain reading of its log of
passes. Times are milliseconds on one clock, read once per pass.
*/
module Liveness {
  import opened Common

  const DRAIN_STALL_TIMEOUT := 8_000
  const DRAIN_STALL_WARN := 3_000
  const STALL_FLAP_WINDOW := 60_000
  const STALL_FLAP_LIMIT := 2
  const WEDGE_TIMEOUT := 30_000

  /** The liveness fields of `TcpState`. */
  datatype Watch = Watch(
    ackedHigh: nat,
    lastDrain: nat,
    warned: bool,
    stallCount: nat,
    stallMark: nat,
    queueHigh: nat)

  /** What one service pass saw: the clock, the socket's send queue, and the bytes acknowledged so far. */
  datatype Pass = Pass(now: nat, queued: nat, acked: nat)

  function Fresh(birth: nat): Watch { Watch(0, birth, false, 0, birth, 0) }

  /** The liveness block of `service_tcp`; the second result is `flap_reset`. */
  function Observe(w: Watch, p: Pass): (Watch, bool) {
    if p.queued == 0 || p.acked > w.ackedHigh then
      (w.(ackedHigh := p.acked, lastDrain := p.now, warned := false, queueHigh := p.queued), false)
    else if !w.warned && SatSub(p.now, w.lastDrain) >= DRAIN_STALL_WARN then
      var count := (if SatSub(p.now, w.stallMark) >= STALL_FLAP_WINDOW then 0 else w.stallCount) + 1;
      (w.(warned := true, stallCount := count, stallMark := p.now, queueHigh := p.queued),
       count >= STALL_FLAP_LIMIT)
    else
      (w.(queueHigh := p.queued), false)
  }

  /** The first test of `reap_wedged`. */
  predicate Stalled(w: Watch, now: nat) {
    w.queueHigh > 0 && SatSub(now, w.lastDrain) >= DRAIN_STALL_TIMEOUT
  }

  // ----- The log, read plainly -----

  /** The clock and the acknowledged bytes never go backwards. */
  ghost predicate Monotone(ps: seq<Pass>, birth: nat) {
    && (forall i, j :: 0 <= i < j < |ps| ==> ps[i].now <= ps[j].now && ps[i].acked <= ps[j].acked)
    && (forall i :: 0 <= i < |ps| ==> birth <= ps[i].now)
  }

  /** Pass `i` found the queue empty, or more bytes acknowledged than any pass before it. */
  ghost predicate Alive(ps: seq<Pass>, i: nat)
    requires i < |ps|
  {
    ps[i].queued == 0 || (0 < ps[i].acked && forall j :: 0 <= j < i ==> ps[j].acked < ps[i].acked)
  }

  /** `t` is the time of the latest alive pass, or the opening time when there is none. */
  ghost predicate IsLatestAlive(ps: seq<Pass>, birth: nat, t: nat) {
    || (t == birth && forall i :: 0 <= i < |ps| ==> !Alive(ps, i))
    || exists k :: 0 <= k < |ps| && Alive(ps, k) && t == ps[k].now && forall i :: k < i < |ps| ==> !Alive(ps, i)
  }

  /** At pass `i` neither the opening nor any alive pass so far is younger than the warning age. */
  ghost predicate Silent(ps: seq<Pass>, birth: nat, i: nat)
    requires i < |ps|
  {
    && birth + DRAIN_STALL_WARN <= ps[i].now
    && forall k :: 0 <= k <= i && Alive(ps, k) ==> ps[k].now + DRAIN_STALL_WARN <= ps[i].now
  }

  /** A stall starts at pass `i`: silent there, and not at the pass before. */
  ghost predicate StallStarts(ps: seq<Pass>, birth: nat, i: nat)
    requires i < |ps|
  {
    Silent(ps, birth, i) && (i == 0 || !Silent(ps, birth, i - 1))
  }

  /** `j` and `i` are consecutive stall starts less than the flap window apart. */
  ghost predicate Flaps(ps: seq<Pass>, birth: nat, j: nat, i: nat)
    requires j < i < |ps|
  {
    && StallStarts(ps, birth, j) && StallStarts(ps, birth, i)
    && (forall k :: j < k < i ==> !StallStarts(ps, birth, k))
    && ps[i].now < ps[j].now + STALL_FLAP_WINDOW
  }

  ghost predicate IsLatestStall(ps: seq<Pass>, birth: nat, t: nat) {
    exists k :: 0 <= k < |ps| && StallStarts(ps, birth, k) && t == ps[k].now &&
                forall i :: k < i < |ps| ==> !StallStarts(ps, birth, i)
  }

  /** Neither the opening nor any alive pass lies within the last `age` milliseconds. */
  ghost predicate QuietFor(ps: seq<Pass>, birth: nat, now: nat, age: nat) {
    birth + age <= now && forall i :: 0 <= i < |ps| && Alive(ps, i) ==> ps[i].now + age <= now
  }

  /** The drain fields say about the log exactly what they are documented to say. */
  ghost predicate DrainTracks(w: Watch, ps: seq<Pass>, birth: nat) {
    && IsLatestAlive(ps, birth, w.lastDrain)
    && w.ackedHigh == (if ps == [] then 0 else ps[|ps| - 1].acked)
    && w.queueHigh == (if ps == [] then 0 else ps[|ps| - 1].queued)
    && w.warned == (ps != [] && Silent(ps, birth, |ps| - 1))
  }

  /** The stall fields count at most one stall, and date the latest. */
  ghost predicate StallTracks(w: Watch, ps: seq<Pass>, birth: nat) {
    if w.stallCount == 0 then forall i :: 0 <= i < |ps| ==> !StallStarts(ps, birth, i)
    else w.stallCount == 1 && IsLatestStall(ps, birth, w.stallMark)
  }

  ghost predicate Tracks(w: Watch, ps: seq<Pass>, birth: nat) {
    DrainTracks(w, ps, birth) && StallTracks(w, ps, birth)
  }

  /** Extending the log never rewrites what earlier passes were. */
  lemma LogIsStable(ps: seq<Pass>, p: Pass, birth: nat, i: nat)
    requires i < |ps|
    ensures Alive(ps + [p], i) == Alive(ps, i)
    ensures Silent(ps + [p], birth, i) == Silent(ps, birth, i)
    ensures StallStarts(ps + [p], birth, i) == StallStarts(ps, birth, i)
  {
    var qs := ps + [p];
    assert forall k :: 0 <= k <= i ==> qs[k] == ps[k];
    assert forall k :: 0 <= k <= i ==> Alive(qs, k) == Alive(ps, k);
  }

  /** The first branch is taken on alive passes only. */
  lemma AliveBranch(ps: seq<Pass>, birth: nat, p: Pass)
    requires Monotone(ps + [p], birth)
    ensures Alive(ps + [p], |ps|) <==>
            p.queued == 0 || p.acked > (if ps == [] then 0 else ps[|ps| - 1].acked)
  {
    var qs, n := ps + [p], |ps|;
    assert qs[n] == p && forall i :: 0 <= i < n ==> qs[i] == ps[i];
    if n > 0 {
      assert forall i :: 0 <= i < n - 1 ==> qs[i].acked <= qs[n - 1].acked;
    }
  }

  /** A later alive pass is younger, so the latest decides. */
  lemma LatestAliveBounds(ps: seq<Pass>, birth: nat, t: nat, now: nat, age: nat)
    requires IsLatestAlive(ps, birth, t) && Monotone(ps, birth)
    requires birth <= now && forall i :: 0 <= i < |ps| ==> ps[i].now <= now
    ensures birth <= t <= now
    ensures SatSub(now, t) >= age <==> QuietFor(ps, birth, now, age)
  {
  }

  /** A pass that is not alive is silent exactly when the latest alive pass is old enough. */
  lemma SilentBranch(ps: seq<Pass>, birth: nat, t: nat, p: Pass)
    requires IsLatestAlive(ps, birth, t) && Monotone(ps + [p], birth)
    ensures Silent(ps + [p], birth, |ps|) <==>
            !Alive(ps + [p], |ps|) && SatSub(p.now, t) >= DRAIN_STALL_WARN
  {
    var qs, n := ps + [p], |ps|;
    assert qs[n] == p;
    forall i | 0 <= i < n ensures Alive(qs, i) == Alive(ps, i) && qs[i] == ps[i] {
      LogIsStable(ps, p, birth, i);
    }
    MonotonePrefix(ps, p, birth);
    LatestAliveBounds(ps, birth, t, p.now, DRAIN_STALL_WARN);
  }

  lemma MonotonePrefix(ps: seq<Pass>, p: Pass, birth: nat)
    requires Monotone(ps + [p], birth)
    ensures Monotone(ps, birth) && birth <= p.now
    ensures forall i :: 0 <= i < |ps| ==> ps[i].now <= p.now && ps[i].acked <= p.acked
  {
    var qs := ps + [p];
    assert qs[|ps|] == p;
    forall i | 0 <= i < |ps| ensures ps[i].now <= p.now && ps[i].acked <= p.acked && birth <= ps[i].now {
      assert qs[i] == ps[i];
    }
    forall i, j | 0 <= i < j < |ps| ensures ps[i].now <= ps[j].now && ps[i].acked <= ps[j].acked {
      assert qs[i] == ps[i] && qs[j] == ps[j];
    }
  }

  /** Silence lasts until an alive pass: a warned flow that is still not alive is still silent. */
  lemma SilenceLasts(ps: seq<Pass>, birth: nat, p: Pass)
    requires ps != [] && Monotone(ps + [p], birth)
    requires Silent(ps, birth, |ps| - 1) && !Alive(ps + [p], |ps|)
    ensures Silent(ps + [p], birth, |ps|)
  {
    var qs, n := ps + [p], |ps|;
    MonotonePrefix(ps, p, birth);
    forall i | 0 <= i < n ensures Alive(qs, i) == Alive(ps, i) && qs[i] == ps[i] {
      LogIsStable(ps, p, birth, i);
    }
  }

  lemma StallStartsBehind(ps: seq<Pass>, p: Pass, birth: nat)
    ensures StallStarts(ps + [p], birth, |ps|) <==>
            Silent(ps + [p], birth, |ps|) && !(ps != [] && Silent(ps, birth, |ps| - 1))
  {
    if ps != [] {
      LogIsStable(ps, p, birth, |ps| - 1);
    }
  }

  /** A stall starts at the new pass exactly when the warning branch is taken. */
  lemma WarningStartsAStall(w: Watch, ps: seq<Pass>, birth: nat, p: Pass)
    requires DrainTracks(w, ps, birth) && Monotone(ps + [p], birth)
    ensures StallStarts(ps + [p], birth, |ps|) <==>
            p.queued != 0 && p.acked <= w.ackedHigh && !w.warned &&
            SatSub(p.now, w.lastDrain) >= DRAIN_STALL_WARN
  {
    AliveBranch(ps, birth, p);
    SilentBranch(ps, birth, w.lastDrain, p);
    StallStartsBehind(ps, p, birth);
  }

  /** The latest stall start is the only one a new stall can flap against. */
  lemma OnlyTheLatestFlaps(ps: seq<Pass>, birth: nat, p: Pass, k: nat)
    requires k < |ps| && StallStarts(ps, birth, k) && forall i :: k < i < |ps| ==> !StallStarts(ps, birth, i)
    requires StallStarts(ps + [p], birth, |ps|)
    ensures (exists j :: 0 <= j < |ps| && Flaps(ps + [p], birth, j, |ps|)) <==> p.now < ps[k].now + STALL_FLAP_WINDOW
  {
    var qs, n := ps + [p], |ps|;
    forall i | 0 <= i < n ensures StallStarts(qs, birth, i) == StallStarts(ps, birth, i) && qs[i] == ps[i] {
      LogIsStable(ps, p, birth, i);
    }
    assert qs[n] == p;
    if p.now < ps[k].now + STALL_FLAP_WINDOW {
      assert Flaps(qs, birth, k, n);
    }
    forall j | 0 <= j < n && Flaps(qs, birth, j, n) ensures j == k {
      assert StallStarts(qs, birth, j);
    }
  }

  lemma NoFlapWithoutAnEarlierStall(ps: seq<Pass>, birth: nat, p: Pass)
    requires forall i :: 0 <= i < |ps| ==> !StallStarts(ps, birth, i)
    ensures !exists j :: 0 <= j < |ps| && Flaps(ps + [p], birth, j, |ps|)
  {
    forall j | 0 <= j < |ps| ensures !Flaps(ps + [p], birth, j, |ps|) {
      LogIsStable(ps, p, birth, j);
    }
  }

  /**
  The flap reset fires exactly when this pass starts a stall less than the
  window after the previous one started.
  */
  lemma FlapResetIsExact(w: Watch, ps: seq<Pass>, birth: nat, p: Pass)
    requires Tracks(w, ps, birth) && Monotone(ps + [p], birth)
    ensures Observe(w, p).1 <==> exists j :: 0 <= j < |ps| && Flaps(ps + [p], birth, j, |ps|)
  {
    WarningStartsAStall(w, ps, birth, p);
    if w.stallCount == 0 {
      NoFlapWithoutAnEarlierStall(ps, birth, p);
    } else if StallStarts(ps + [p], birth, |ps|) {
      var k :| 0 <= k < |ps| && StallStarts(ps, birth, k) && w.stallMark == ps[k].now &&
               forall i :: k < i < |ps| ==> !StallStarts(ps, birth, i);
      MonotonePrefix(ps, p, birth);
      OnlyTheLatestFlaps(ps, birth, p, k);
    }
  }

  lemma LatestAliveMoves(ps: seq<Pass>, birth: nat, p: Pass, t: nat)
    requires IsLatestAlive(ps, birth, t)
    ensures IsLatestAlive(ps + [p], birth, if Alive(ps + [p], |ps|) then p.now else t)
  {
    var qs, n := ps + [p], |ps|;
    forall i | 0 <= i < n ensures Alive(qs, i) == Alive(ps, i) && qs[i] == ps[i] {
      LogIsStable(ps, p, birth, i);
    }
    assert qs[n] == p;
    if !Alive(qs, n) && exists i :: 0 <= i < n && Alive(ps, i) {
      var k :| 0 <= k < n && Alive(ps, k) && t == ps[k].now && forall i :: k < i < n ==> !Alive(ps, i);
      assert Alive(qs, k) && t == qs[k].now && forall i :: k < i < |qs| ==> !Alive(qs, i);
    }
  }

  lemma StallStaysLatest(ps: seq<Pass>, birth: nat, p: Pass, k: nat)
    requires k < |ps| && StallStarts(ps, birth, k) && forall i :: k < i < |ps| ==> !StallStarts(ps, birth, i)
    requires !StallStarts(ps + [p], birth, |ps|)
    ensures StallStarts(ps + [p], birth, k) && (ps + [p])[k] == ps[k]
    ensures forall i :: k < i < |ps + [p]| ==> !StallStarts(ps + [p], birth, i)
  {
    LogIsStable(ps, p, birth, k);
    forall i | k < i < |ps| ensures !StallStarts(ps + [p], birth, i) {
      LogIsStable(ps, p, birth, i);
    }
  }

  lemma LatestStallMoves(ps: seq<Pass>, birth: nat, p: Pass, t: nat)
    requires IsLatestStall(ps, birth, t)
    requires !StallStarts(ps + [p], birth, |ps|)
    ensures IsLatestStall(ps + [p], birth, t)
  {
    var k :| 0 <= k < |ps| && StallStarts(ps, birth, k) && t == ps[k].now &&
             forall i :: k < i < |ps| ==> !StallStarts(ps, birth, i);
    StallStaysLatest(ps, birth, p, k);
  }

  lemma StallFieldsTrack(w: Watch, ps: seq<Pass>, birth: nat, p: Pass)
    requires Tracks(w, ps, birth) && Monotone(ps + [p], birth) && !Observe(w, p).1
    ensures StallTracks(Observe(w, p).0, ps + [p], birth)
  {
    var qs, n := ps + [p], |ps|;
    WarningStartsAStall(w, ps, birth, p);
    if StallStarts(qs, birth, n) {
      assert qs[n].now == p.now;
    } else if w.stallCount == 1 {
      LatestStallMoves(ps, birth, p, w.stallMark);
    } else {
      forall i | 0 <= i < n ensures !StallStarts(qs, birth, i) {
        LogIsStable(ps, p, birth, i);
      }
    }
  }

  lemma DrainFieldsTrack(w: Watch, ps: seq<Pass>, birth: nat, p: Pass)
    requires DrainTracks(w, ps, birth) && Monotone(ps + [p], birth)
    ensures DrainTracks(Observe(w, p).0, ps + [p], birth)
  {
    AliveBranch(ps, birth, p);
    SilentBranch(ps, birth, w.lastDrain, p);
    if w.warned && !Alive(ps + [p], |ps|) {
      SilenceLasts(ps, birth, p);
    }
    LatestAliveMoves(ps, birth, p, w.lastDrain);
    MonotonePrefix(ps, p, birth);
  }

  /** A pass that does not ask for a flap reset leaves every field true of the longer log. */
  lemma ObserveTracks(w: Watch, ps: seq<Pass>, birth: nat, p: Pass)
    requires Tracks(w, ps, birth) && Monotone(ps + [p], birth) && !Observe(w, p).1
    ensures Tracks(Observe(w, p).0, ps + [p], birth)
  {
    DrainFieldsTrack(w, ps, birth, p);
    StallFieldsTrack(w, ps, birth, p);
  }

  lemma FreshTracks(birth: nat)
    ensures Tracks(Fresh(birth), [], birth)
  {
  }

  /**
  Exact stall detection: the reap resets a flow at `now` if and only if its last
  pass left bytes queued and neither its opening nor any alive pass falls within
  the last eight seconds.
  */
  lemma StallResetIsExact(w: Watch, ps: seq<Pass>, birth: nat, now: nat)
    requires Tracks(w, ps, birth) && Monotone(ps, birth)
    requires birth <= now && forall i :: 0 <= i < |ps| ==> ps[i].now <= now
    ensures Stalled(w, now) <==>
            ps != [] && ps[|ps| - 1].queued > 0 && QuietFor(ps, birth, now, DRAIN_STALL_TIMEOUT)
  {
    LatestAliveBounds(ps, birth, w.lastDrain, now, DRAIN_STALL_TIMEOUT);
  }
}
