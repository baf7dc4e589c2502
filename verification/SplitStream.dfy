/**
The stream that cuts the first TLS flight inside the server name: what a write
of any data puts on the wire, poll by poll, whatever the stream below it does,
and exactly when the name can still cross in one piece.
*/
module SplitStream {
  import opened Common
  import opened Sniff
  import opened Fragment
  import opened ClientHello

  datatype FragmentConfig = FragmentConfig(
    enabled: bool,
    sizeMin: nat,
    sizeMax: nat,
    delayMin: nat,
    delayMax: nat,
    sniSplit: bool)

  /** `pick_chunk_len`, with the random draw as a parameter. */
  function PickChunkLen(cfg: FragmentConfig, remaining: nat, draw: nat): (n: nat)
    ensures n <= remaining && n <= Max(cfg.sizeMax, 1)
    ensures remaining > 0 ==> n >= Min(remaining, Min(Max(cfg.sizeMin, 1), Max(cfg.sizeMax, 1)))
  {
    var hi := Min(Max(cfg.sizeMax, 1), remaining);
    var lo := Min(Max(cfg.sizeMin, 1), hi);
    if lo >= hi then hi else Clamp(draw, lo, hi)
  }

  /** What the inner stream does with the bytes it is offered. */
  datatype Reply = Accept(n: nat) | NotReady | Broken

  datatype Poll = Ready(n: nat) | Pending | Failed

  /**
  What one poll depends on besides the stream: whether the stream was read from
  since the last one, the inner stream's reply, the delay timer, and the random draws.
  */
  datatype World = World(answered: bool, reply: Reply, slept: bool, draw: nat, delay: nat)

  /** The fields of the stream that decide how it cuts. */
  datatype State = State(fragmenting: bool, firstWrite: bool, delayed: bool)

  function Fresh(cfg: FragmentConfig): State { State(cfg.enabled, true, false) }

  // ----- One poll -----

  /** How many bytes of `buf` a poll offers to the inner stream. */
  function Offered(cfg: FragmentConfig, fragmenting: bool, firstWrite: bool, buf: bytes, draw: nat): (n: nat)
    ensures n <= |buf| && (buf != [] ==> n > 0)
  {
    if buf == [] || !fragmenting then |buf|
    else
      var range := if firstWrite && cfg.sniSplit then SniHostRange(buf) else None;
      if range.Some? then
        RangeIsOrdered(buf);
        var split := range.value.0 + (range.value.1 - range.value.0) / 2;
        if 0 < split < |buf| then split else PickChunkLen(cfg, |buf|, draw)
      else PickChunkLen(cfg, |buf|, draw)
  }

  function Inner(len: nat, reply: Reply): Poll {
    match reply
    case Accept(n) => Ready(Min(n, len))
    case NotReady => Pending
    case Broken => Failed
  }

  /** `poll_write`: the state after it and what it returns. */
  function PollOnce(cfg: FragmentConfig, st: State, buf: bytes, w: World): (State, Poll) {
    if buf == [] || !st.fragmenting then (st, Inner(|buf|, w.reply))
    else if st.delayed && !w.slept then (st, Pending)
    else
      var r := Inner(Offered(cfg, true, st.firstWrite, buf, w.draw), w.reply);
      var progress := r.Ready? && r.n > 0;
      (State(true, st.firstWrite && !progress, progress && cfg.delayMax != 0 && w.delay != 0), r)
  }

  /** Any read, whatever comes of it, ends the cutting. */
  function Heard(st: State, w: World): State { if w.answered then st.(fragmenting := false) else st }

  // ----- A whole write -----

  datatype Written = Written(done: bool, pieces: seq<bytes>, st: State)

  /** Writing all of `data` by repeated polls; an error, or a poll that takes nothing, ends it. */
  function WriteRun(cfg: FragmentConfig, st: State, data: bytes, worlds: seq<World>): Written
    decreases |worlds|
  {
    if data == [] then Written(true, [], st)
    else if worlds == [] then Written(false, [], st)
    else
      var (st1, r) := PollOnce(cfg, Heard(st, worlds[0]), data, worlds[0]);
      match r
      case Failed => Written(false, [], st1)
      case Pending => WriteRun(cfg, st1, data, worlds[1..])
      case Ready(n) =>
        if n == 0 || n > |data| then Written(false, [], st1)
        else
          var later := WriteRun(cfg, st1, data[n..], worlds[1..]);
          Written(later.done, [data[..n]] + later.pieces, later.st)
  }

  lemma PollIsInBounds(cfg: FragmentConfig, st: State, buf: bytes, w: World)
    ensures var (st1, r) := PollOnce(cfg, st, buf, w);
            && (r.Ready? ==> r.n <= Offered(cfg, st.fragmenting, st.firstWrite, buf, w.draw) <= |buf|)
            && (w.reply.Accept? && w.slept ==>
                  r == Ready(Min(w.reply.n, Offered(cfg, st.fragmenting, st.firstWrite, buf, w.draw))))
            && (r.Failed? ==> w.reply.Broken?)
            && (r == Ready(0) && buf != [] ==> w.reply == Accept(0))
  {
  }

  /** Nothing is lost, repeated or reordered: the pieces are a prefix of the data, and all of it when it is done. */
  lemma {:induction false} PiecesAreThePrefix(cfg: FragmentConfig, st: State, data: bytes, worlds: seq<World>)
    ensures var r := WriteRun(cfg, st, data, worlds);
            && |Flatten(r.pieces)| <= |data| && Flatten(r.pieces) == data[..|Flatten(r.pieces)|]
            && (r.done <==> Flatten(r.pieces) == data)
            && [] !in r.pieces
    decreases |worlds|
  {
    if data != [] && worlds != [] {
      var (st1, r) := PollOnce(cfg, Heard(st, worlds[0]), data, worlds[0]);
      PollIsInBounds(cfg, Heard(st, worlds[0]), data, worlds[0]);
      if r.Pending? {
        PiecesAreThePrefix(cfg, st1, data, worlds[1..]);
      } else if r.Ready? && r.n > 0 {
        PiecesAreThePrefix(cfg, st1, data[r.n..], worlds[1..]);
        PrefixBehind(data, r.n, WriteRun(cfg, st1, data[r.n..], worlds[1..]).pieces);
      }
    }
  }

  lemma PrefixBehind(data: bytes, n: nat, later: seq<bytes>)
    requires n <= |data|
    requires |Flatten(later)| <= |data| - n && Flatten(later) == data[n..][..|Flatten(later)|]
    ensures var all := Flatten([data[..n]] + later);
            && |all| == n + |Flatten(later)| && all == data[..|all|]
            && (all == data <==> Flatten(later) == data[n..])
  {
    assert ([data[..n]] + later)[1..] == later;
    assert data == data[..n] + data[n..];
  }

  /** A poll of this world moves at least one byte of any data left. */
  predicate Advances(w: World) { w.reply.Accept? && w.reply.n > 0 && w.slept }

  /** A poll of this world can end the write. */
  predicate Stops(w: World) { w.reply.Broken? || w.reply == Accept(0) }

  /** How many worlds advance before the first that can end the write. */
  function Pushes(worlds: seq<World>): nat {
    if worlds == [] || Stops(worlds[0]) then 0
    else (if Advances(worlds[0]) then 1 else 0) + Pushes(worlds[1..])
  }

  lemma {:induction false} AllAdvance(worlds: seq<World>)
    requires forall w :: w in worlds ==> Advances(w)
    ensures Pushes(worlds) == |worlds|
  {
    if worlds != [] {
      assert Advances(worlds[0]);
      AllAdvance(worlds[1..]);
    }
  }

  /**
  Delivery: every world that accepts something, up to the first error, moves at
  least one byte, however little it accepts; so as many of them as there are
  bytes complete the write.
  */
  lemma {:induction false} WriteCompletes(cfg: FragmentConfig, st: State, data: bytes, worlds: seq<World>)
    ensures |Flatten(WriteRun(cfg, st, data, worlds).pieces)| >= Min(Pushes(worlds), |data|)
    ensures Pushes(worlds) >= |data| ==> WriteRun(cfg, st, data, worlds).done
    decreases |worlds|
  {
    PiecesAreThePrefix(cfg, st, data, worlds);
    if data != [] && worlds != [] && !Stops(worlds[0]) {
      var (st1, r) := PollOnce(cfg, Heard(st, worlds[0]), data, worlds[0]);
      PollIsInBounds(cfg, Heard(st, worlds[0]), data, worlds[0]);
      if r.Pending? {
        WriteCompletes(cfg, st1, data, worlds[1..]);
      } else {
        WriteCompletes(cfg, st1, data[r.n..], worlds[1..]);
        PiecesAreThePrefix(cfg, st1, data[r.n..], worlds[1..]);
        PrefixBehind(data, r.n, WriteRun(cfg, st1, data[r.n..], worlds[1..]).pieces);
      }
    }
  }

  // ----- Lengths and delays -----

  /** Exactly the lengths between the configured bounds, cut to what remains, can be drawn. */
  lemma LengthsAreExact(cfg: FragmentConfig, remaining: nat, n: nat)
    requires remaining > 0
    ensures (exists draw: nat :: PickChunkLen(cfg, remaining, draw) == n) <==>
            Min(remaining, Min(Max(cfg.sizeMin, 1), Max(cfg.sizeMax, 1))) <= n <= Min(remaining, Max(cfg.sizeMax, 1))
  {
    var x := PickChunkLen(cfg, remaining, n);
  }

  /** Nobody has read from the stream. */
  ghost predicate Unheard(worlds: seq<World>) { forall w :: w in worlds ==> !w.answered }

  /** While the cutting goes on, no piece after the first write is longer than the configured size. */
  lemma {:induction false} PiecesAreShort(cfg: FragmentConfig, st: State, data: bytes, worlds: seq<World>)
    requires st.fragmenting && !st.firstWrite && Unheard(worlds)
    ensures forall p :: p in WriteRun(cfg, st, data, worlds).pieces ==> 0 < |p| <= Max(cfg.sizeMax, 1)
    decreases |worlds|
  {
    if data != [] && worlds != [] {
      assert worlds[0] in worlds;
      var (st1, r) := PollOnce(cfg, st, data, worlds[0]);
      PollIsInBounds(cfg, st, data, worlds[0]);
      if r.Pending? {
        PiecesAreShort(cfg, st1, data, worlds[1..]);
      } else if r.Ready? && r.n > 0 {
        PiecesAreShort(cfg, st1, data[r.n..], worlds[1..]);
      }
    }
  }

  /** Polls before the delay is over change nothing and write nothing. */
  lemma {:induction false} DelayHolds(cfg: FragmentConfig, st: State, data: bytes, early: seq<World>, ws: seq<World>)
    requires st.fragmenting && st.delayed && Unheard(early) && data != []
    requires forall w :: w in early ==> !w.slept
    ensures WriteRun(cfg, st, data, early + ws) == WriteRun(cfg, st, data, ws)
    decreases |early|
  {
    if early == [] {
      assert early + ws == ws;
    } else {
      assert early[0] in early && (early + ws)[0] == early[0];
      TailOfAppend(early, ws);
      DelayHolds(cfg, st, data, early[1..], ws);
    }
  }

  /** A poll that moves something while the cutting goes on arms the delay exactly when one is configured and drawn. */
  lemma DelayIsArmed(cfg: FragmentConfig, st: State, buf: bytes, w: World)
    requires st.fragmenting && buf != [] && (st.delayed ==> w.slept) && w.reply.Accept? && w.reply.n > 0
    ensures var (st1, r) := PollOnce(cfg, st, buf, w);
            && st1.fragmenting && !st1.firstWrite && (st1.delayed <==> cfg.delayMax > 0 && w.delay > 0)
            && r.Ready? && r.n > 0
  {
  }

  /** Once the stream has been read from, a write offers all it has left at once. */
  lemma ReadingEndsTheCutting(cfg: FragmentConfig, st: State, data: bytes, w: World, ws: seq<World>)
    requires w.answered && w.reply.Accept? && w.reply.n >= |data| && data != []
    ensures WriteRun(cfg, st, data, [w] + ws).pieces == [data]
  {
    assert ([w] + ws)[0] == w && data[..|data|] == data && data[|data|..] == [];
    assert [data] + [] == [data];
  }

  // ----- The name on the wire -----

  /** Some one piece holds everything from `s` to `e`, counted from the start of the pieces. */
  ghost predicate Whole(pieces: seq<bytes>, s: int, e: int) {
    pieces != [] && (|| (0 <= s && e <= |pieces[0]|)
                     || Whole(pieces[1..], s - |pieces[0]|, e - |pieces[0]|))
  }

  lemma {:induction false} PassedIsNotWhole(pieces: seq<bytes>, s: int, e: int)
    requires s < 0
    ensures !Whole(pieces, s, e)
    decreases |pieces|
  {
    if pieces != [] {
      PassedIsNotWhole(pieces[1..], s - |pieces[0]|, e - |pieces[0]|);
    }
  }

  lemma FirstPieceOf(cfg: FragmentConfig, data: bytes, w: World, ws: seq<World>)
    requires cfg.enabled && !w.answered && w.reply.Accept? && w.reply.n > 0 && data != []
    ensures var n := Min(w.reply.n, Offered(cfg, true, true, data, w.draw));
            var r := WriteRun(cfg, Fresh(cfg), data, [w] + ws);
            0 < n <= |data| && r.pieces != [] && r.pieces[0] == data[..n]
  {
    assert ([w] + ws)[0] == w;
  }

  /** The first cut falls strictly inside the server name the router would read. */
  lemma FirstCutSplitsTheName(cfg: FragmentConfig, buf: bytes, draw: nat)
    requires cfg.sniSplit && ServerName(buf).Some? && SniHostRange(buf).Some?
    ensures var (s, e) := SniHostRange(buf).value; s < Offered(cfg, true, true, buf, draw) < e <= |buf|
  {
    ParsersAgree(buf);
    var (s, e) := SniHostRange(buf).value;
    RawNameIsLongEnough(buf[s..e]);
  }

  /** The poll that sends all that is left: the stream has been read from and the inner stream takes everything. */
  function TakeAll(data: bytes): World { World(true, Accept(|data|), true, 0, 0) }

  lemma RestInOnePiece(cfg: FragmentConfig, data: bytes, w: World)
    requires cfg.enabled && !w.answered && w.reply.Accept? && data != []
    requires 0 < w.reply.n <= Offered(cfg, true, true, data, w.draw) < |data|
    ensures WriteRun(cfg, Fresh(cfg), data, [w, TakeAll(data)]).pieces == [data[..w.reply.n], data[w.reply.n..]]
  {
    var ws := [w, TakeAll(data)];
    assert ws[1..] == [TakeAll(data)] && ws[1..][1..] == [];
    var (st1, r) := PollOnce(cfg, Fresh(cfg), data, w);
    var rest := data[w.reply.n..];
    assert rest[..|rest|] == rest && rest[|rest|..] == [];
    assert WriteRun(cfg, st1, rest, ws[1..]).pieces == [rest] + [];
  }

  /** A first write cut short of the name lets a later poll send the whole of it at once. */
  lemma ShortFirstWriteShowsTheName(cfg: FragmentConfig, data: bytes, w: World)
    requires cfg.enabled && cfg.sniSplit && ServerName(data).Some? && SniHostRange(data).Some?
    requires !w.answered && w.reply.Accept? && 0 < w.reply.n <= SniHostRange(data).value.0
    ensures var (s, e) := SniHostRange(data).value;
            Whole(WriteRun(cfg, Fresh(cfg), data, [w, TakeAll(data)]).pieces, s, e)
  {
    FirstCutSplitsTheName(cfg, data, w.draw);
    RestInOnePiece(cfg, data, w);
    var (s, e) := SniHostRange(data).value;
    var pieces := [data[..w.reply.n], data[w.reply.n..]];
    assert pieces[1..] == [data[w.reply.n..]];
    assert Whole(pieces[1..], s - w.reply.n, e - w.reply.n);
  }

  lemma LongFirstWriteHidesTheName(cfg: FragmentConfig, data: bytes, w: World, ws: seq<World>)
    requires cfg.enabled && cfg.sniSplit && ServerName(data).Some? && SniHostRange(data).Some?
    requires !w.answered && w.reply.Accept? && SniHostRange(data).value.0 < w.reply.n
    ensures var (s, e) := SniHostRange(data).value;
            !Whole(WriteRun(cfg, Fresh(cfg), data, [w] + ws).pieces, s, e)
  {
    var (s, e) := SniHostRange(data).value;
    FirstCutSplitsTheName(cfg, data, w.draw);
    FirstPieceOf(cfg, data, w, ws);
    var pieces := WriteRun(cfg, Fresh(cfg), data, [w] + ws).pieces;
    PassedIsNotWhole(pieces[1..], s - |pieces[0]|, e - |pieces[0]|);
  }

  /**
  The name on the wire, exactly: whatever the stream below and the readers above
  do afterwards, no piece holds the whole name, if and only if the first write
  takes more bytes than stand before the name.
  */
  lemma NameIsSplitIff(cfg: FragmentConfig, data: bytes, w: World)
    requires cfg.enabled && cfg.sniSplit && ServerName(data).Some? && SniHostRange(data).Some?
    requires !w.answered && w.reply.Accept? && w.reply.n > 0
    ensures var (s, e) := SniHostRange(data).value;
            (forall ws :: !Whole(WriteRun(cfg, Fresh(cfg), data, [w] + ws).pieces, s, e)) <==> s < w.reply.n
  {
    var (s, e) := SniHostRange(data).value;
    if s < w.reply.n {
      forall ws ensures !Whole(WriteRun(cfg, Fresh(cfg), data, [w] + ws).pieces, s, e) {
        LongFirstWriteHidesTheName(cfg, data, w, ws);
      }
    } else {
      ShortFirstWriteShowsTheName(cfg, data, w);
      assert [w] + [TakeAll(data)] == [w, TakeAll(data)];
    }
  }

  /** Such a write exists: a ClientHello for `a.b` whose first write takes one byte. */
  lemma AShortFirstWrite(cfg: FragmentConfig) returns (data: bytes, w: World)
    requires cfg.enabled && cfg.sniSplit
    ensures ServerName(data) == Some(A_DOT_B) && SniHostRange(data).Some?
    ensures var (s, e) := SniHostRange(data).value;
            Whole(WriteRun(cfg, Fresh(cfg), data, [w, TakeAll(data)]).pieces, s, e)
  {
    data := HelloForShortName();
    w := World(false, Accept(1), true, 0, 0);
    ShortFirstWriteShowsTheName(cfg, data, w);
  }

  // ----- The stream -----

  /** The cut of one write: inside the server name on the first write that shows one, else a random length. */
  method ChooseLen(cfg: FragmentConfig, firstWrite: bool, buf: bytes, draw: nat) returns (len: nat)
    requires buf != []
    ensures len == Offered(cfg, true, firstWrite, buf, draw)
  {
    if firstWrite && cfg.sniSplit {
      var range := ReadSniHostRange(buf);
      RangeIsOrdered(buf);
      if range.Some? {
        var split := range.value.0 + (range.value.1 - range.value.0) / 2;
        if 0 < split < |buf| {
          return split;
        }
      }
    }
    len := PickChunkLen(cfg, |buf|, draw);
  }

  /** What one turn of a write leaves to the rest of it. */
  lemma TurnStep(cfg: FragmentConfig, st: State, left: bytes, worlds: seq<World>, i: nat, before: seq<bytes>)
    requires i < |worlds| && left != []
    ensures var (st1, r) := PollOnce(cfg, Heard(st, worlds[i]), left, worlds[i]);
            var all := WriteRun(cfg, st, left, worlds[i..]);
            match r
            case Failed => all == Written(false, [], st1)
            case Pending => all == WriteRun(cfg, st1, left, worlds[i + 1..])
            case Ready(n) =>
              if n == 0 then all == Written(false, [], st1)
              else
                n <= |left| &&
                var later := WriteRun(cfg, st1, left[n..], worlds[i + 1..]);
                all.done == later.done && all.st == later.st
                && before + all.pieces == (before + [left[..n]]) + later.pieces
  {
    assert worlds[i..][1..] == worlds[i + 1..];
    PollIsInBounds(cfg, Heard(st, worlds[i]), left, worlds[i]);
    var (st1, r) := PollOnce(cfg, Heard(st, worlds[i]), left, worlds[i]);
    if r.Ready? && r.n > 0 {
      Assoc(before, [left[..r.n]], WriteRun(cfg, st1, left[r.n..], worlds[i + 1..]).pieces);
    }
  }

  /** How far a write gets, and what is on the wire behind what was there. */
  lemma Sent(cfg: FragmentConfig, st: State, data: bytes, worlds: seq<World>, start: seq<bytes>, r: Written)
    returns (sent: nat)
    requires r == WriteRun(cfg, st, data, worlds)
    ensures Min(Pushes(worlds), |data|) <= sent <= |data|
    ensures Flatten(start + r.pieces) == Flatten(start) + data[..sent] && (r.done <==> sent == |data|)
  {
    PiecesAreThePrefix(cfg, st, data, worlds);
    WriteCompletes(cfg, st, data, worlds);
    FlattenAppend(start, r.pieces);
    sent := |Flatten(r.pieces)|;
    assert sent == |data| ==> data[..sent] == data;
  }

  class FragmentingStream {
    const cfg: FragmentConfig
    var fragmenting: bool
    var firstWrite: bool
    var delayed: bool
    var wire: bytes         // everything the inner stream has accepted
    var pieces: seq<bytes>  // the same, write by write

    ghost function View(): State
      reads this
    {
      State(fragmenting, firstWrite, delayed)
    }

    ghost predicate Valid()
      reads this
    {
      wire == Flatten(pieces)
    }

    constructor (cfg: FragmentConfig)
      ensures this.cfg == cfg && View() == Fresh(cfg) && pieces == [] && Valid()
    {
      this.cfg, fragmenting, firstWrite, delayed, wire, pieces := cfg, cfg.enabled, true, false, [], [];
    }

    /** Reading ends the cutting, even before anything has come back. */
    method PollRead()
      modifies this`fragmenting
      ensures !fragmenting
    {
      fragmenting := false;
    }

    method InnerWrite(chunk: bytes, reply: Reply) returns (r: Poll)
      requires Valid()
      modifies this`wire, this`pieces
      ensures Valid() && r == Inner(|chunk|, reply)
      ensures pieces == old(pieces) + if r.Ready? && r.n > 0 then [chunk[..r.n]] else []
    {
      match reply {
        case Accept(n) =>
          var k := Min(n, |chunk|);
          if k > 0 {
            FlattenAppend(pieces, [chunk[..k]]);
            assert Flatten([chunk[..k]]) == chunk[..k] + [];
            wire, pieces := wire + chunk[..k], pieces + [chunk[..k]];
          }
          return Ready(k);
        case NotReady => return Pending;
        case Broken => return Failed;
      }
    }

    /** At most the offered bytes go out, and exactly what is reported went out. */
    method PollWrite(buf: bytes, w: World) returns (r: Poll)
      requires Valid()
      modifies this`firstWrite, this`delayed, this`wire, this`pieces
      ensures Valid() && (View(), r) == PollOnce(cfg, old(View()), buf, w)
      ensures r.Ready? ==> r.n <= |buf|
      ensures pieces == old(pieces) + if r.Ready? && r.n > 0 then [buf[..r.n]] else []
    {
      if buf == [] || !fragmenting {
        r := InnerWrite(buf, w.reply);
        return;
      }
      if delayed {
        if !w.slept {
          return Pending;
        }
        delayed := false;
      }
      var len := ChooseLen(cfg, firstWrite, buf, w.draw);
      r := InnerWrite(buf[..len], w.reply);
      if r.Ready? && r.n > 0 {
        assert buf[..len][..r.n] == buf[..r.n];
        firstWrite := false;
        delayed := cfg.delayMax != 0 && w.delay != 0;
      }
    }

    /** One turn of a write-all: reads that came in between, then a poll. */
    method Turn(data: bytes, w: World) returns (r: Poll)
      requires Valid()
      modifies this`fragmenting, this`firstWrite, this`delayed, this`wire, this`pieces
      ensures Valid() && (View(), r) == PollOnce(cfg, Heard(old(View()), w), data, w)
      ensures r.Ready? ==> r.n <= |data|
      ensures pieces == old(pieces) + if r.Ready? && r.n > 0 then [data[..r.n]] else []
    {
      if w.answered {
        PollRead();
      }
      r := PollWrite(data, w);
    }

    /** The polls of a write-all, one after another. */
    method PollUntilDone(data: bytes, worlds: seq<World>) returns (done: bool)
      requires Valid()
      modifies this`fragmenting, this`firstWrite, this`delayed, this`wire, this`pieces
      ensures Valid()
      ensures var r := WriteRun(cfg, old(View()), data, worlds);
              View() == r.st && done == r.done && pieces == old(pieces) + r.pieces
    {
      ghost var goal := WriteRun(cfg, View(), data, worlds);
      ghost var start := pieces;
      var left := data;
      done := left == [];
      var i := 0;
      assert worlds[0..] == worlds;
      while i < |worlds| && left != []
        invariant i <= |worlds| && Valid() && done == (left == [])
        invariant var r := WriteRun(cfg, View(), left, worlds[i..]);
                  r.st == goal.st && r.done == goal.done && pieces + r.pieces == start + goal.pieces
      {
        ghost var before, was := pieces, View();
        var r := Turn(left, worlds[i]);
        TurnStep(cfg, was, left, worlds, i, before);
        i := i + 1;
        if r.Failed? || r == Ready(0) {
          break;
        }
        if r.Ready? {
          left := left[r.n..];
          done := left == [];
        }
      }
      assert pieces + [] == pieces;
    }

    /**
    Writing all of `data` by repeated polls, with reads in between. For every
    behaviour of the inner stream what goes out is a prefix of the data, in
    order; it is all of it exactly when the write is reported done; and it is
    done as soon as as many polls have been accepted as there are bytes.
    */
    method WriteAll(data: bytes, worlds: seq<World>) returns (done: bool)
      requires Valid()
      modifies this`fragmenting, this`firstWrite, this`delayed, this`wire, this`pieces
      ensures Valid()
      ensures var r := WriteRun(cfg, old(View()), data, worlds);
              View() == r.st && done == r.done && pieces == old(pieces) + r.pieces
      ensures exists sent :: Min(Pushes(worlds), |data|) <= sent <= |data|
                             && wire == old(wire) + data[..sent] && (done <==> sent == |data|)
    {
      ghost var goal := WriteRun(cfg, View(), data, worlds);
      done := PollUntilDone(data, worlds);
      ghost var sent := Sent(cfg, old(View()), data, worlds, old(pieces), goal);
      assert wire == old(wire) + data[..sent];
    }
  }
}
