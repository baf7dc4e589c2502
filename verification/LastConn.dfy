/** The remembered gateways: a capped most-recently-used list, against the whole history of saves. */
module LastConn {
  import opened Common

  const RECENT_CAP := 8

  datatype LastConnection = LastConnection(peer: string, profile: string, carrier: string, recent: seq<string>)

  datatype Save = Save(peer: string, profile: string, carrier: string)

  function Without(xs: seq<string>, p: string): seq<string> {
    if xs == [] then [] else (if xs[0] == p then [] else [xs[0]]) + Without(xs[1..], p)
  }

  function Cut(xs: seq<string>, n: nat): seq<string> { if |xs| <= n then xs else xs[..n] }

  /** The gateways the next save builds on: those of the same carrier, or of a file that names none. */
  function CarriedOver(previous: Option<LastConnection>, carrier: string): seq<string> {
    if previous.Some? && (previous.value.carrier == "" || previous.value.carrier == carrier)
    then previous.value.recent else []
  }

  /** The record `save` writes. */
  function Saved(previous: Option<LastConnection>, s: Save): LastConnection {
    LastConnection(s.peer, s.profile, s.carrier,
                   Cut([s.peer] + Without(CarriedOver(previous, s.carrier), s.peer), RECENT_CAP))
  }

  lemma {:induction false} WithoutAppend(a: seq<string>, b: seq<string>, p: string)
    ensures Without(a + b, p) == Without(a, p) + Without(b, p)
  {
    if a == [] {
      assert a + b == b;
    } else {
      TailOfAppend(a, b);
      WithoutAppend(a[1..], b, p);
      Assoc(if a[0] == p then [] else [a[0]], Without(a[1..], p), Without(b, p));
    }
  }

  /** The capped push loop of `save`. */
  method SaveRecord(previous: Option<LastConnection>, s: Save) returns (conn: LastConnection)
    ensures conn == Saved(previous, s)
  {
    var carried := CarriedOver(previous, s.carrier);
    var recent := [s.peer];
    for i := 0 to |carried|
      invariant recent == Cut([s.peer] + Without(carried[..i], s.peer), RECENT_CAP)
    {
      assert carried[..i + 1] == carried[..i] + [carried[i]];
      WithoutAppend(carried[..i], [carried[i]], s.peer);
      if carried[i] != s.peer && |recent| < RECENT_CAP {
        recent := recent + [carried[i]];
      }
    }
    assert carried[..|carried|] == carried;
    conn := LastConnection(s.peer, s.profile, s.carrier, recent);
  }

  // ----- The whole history -----

  /** The distinct entries of a history, the latest first. */
  function Newest(h: seq<string>): seq<string> {
    if h == [] then [] else [h[|h| - 1]] + Without(Newest(h[..|h| - 1]), h[|h| - 1])
  }

  /** Position of the latest save of a peer. */
  function LastIndex(h: seq<string>, p: string): nat
    requires p in h
  {
    if h[|h| - 1] == p then |h| - 1 else LastIndex(h[..|h| - 1], p)
  }

  ghost predicate Distinct(xs: seq<string>) {
    forall i, j :: 0 <= i < j < |xs| ==> xs[i] != xs[j]
  }

  lemma {:induction false} WithoutKeeps(xs: seq<string>, p: string)
    ensures forall x :: x in Without(xs, p) <==> x in xs && x != p
    ensures Distinct(xs) ==> Distinct(Without(xs, p))
  {
    if xs != [] {
      WithoutKeeps(xs[1..], p);
      assert forall x :: x in xs <==> x == xs[0] || x in xs[1..];
      if Distinct(xs) {
        assert xs[0] !in xs[1..];
        assert Distinct(xs[1..]);
      }
    }
  }

  /** How recently a peer was saved: the position of its latest save. */
  function Rank(h: seq<string>): string -> int {
    (x: string) => if x in h then LastIndex(h, x) else -1
  }

  ghost predicate Falling(xs: seq<string>, rank: string -> int) {
    forall i, j :: 0 <= i < j < |xs| ==> rank(xs[i]) > rank(xs[j])
  }

  /** `xs` holds each peer of the history once, ordered by latest save, newest first. */
  ghost predicate ByLatestSave(h: seq<string>, xs: seq<string>) {
    (forall x :: x in xs <==> x in h) && Falling(xs, Rank(h))
  }

  lemma FallingBehind(x: string, xs: seq<string>, rank: string -> int)
    requires Falling(xs, rank) && forall y :: y in xs ==> rank(x) > rank(y)
    ensures Falling([x] + xs, rank)
  {
    var ys := [x] + xs;
    forall i, j | 0 <= i < j < |ys| ensures rank(ys[i]) > rank(ys[j]) {
      assert ys[j] == xs[j - 1] && xs[j - 1] in xs;
      if i > 0 {
        assert ys[i] == xs[i - 1];
      }
    }
  }

  lemma FallingTail(xs: seq<string>, rank: string -> int)
    requires xs != [] && Falling(xs, rank)
    ensures Falling(xs[1..], rank) && forall y :: y in xs[1..] ==> rank(xs[0]) > rank(y)
  {
    forall y | y in xs[1..] ensures rank(xs[0]) > rank(y) {
      var k :| 0 <= k < |xs[1..]| && xs[1..][k] == y;
      assert xs[k + 1] == y;
    }
  }

  /** Taking an entry out keeps the order of the rest. */
  lemma {:induction false} WithoutKeepsOrder(xs: seq<string>, p: string, rank: string -> int)
    requires Falling(xs, rank)
    ensures Falling(Without(xs, p), rank)
  {
    if xs != [] {
      FallingTail(xs, rank);
      WithoutKeepsOrder(xs[1..], p, rank);
      WithoutKeeps(xs[1..], p);
      FallingBehind(xs[0], Without(xs[1..], p), rank);
    }
  }

  lemma FallingAgrees(xs: seq<string>, r: string -> int, s: string -> int)
    requires Falling(xs, r) && forall x :: x in xs ==> r(x) == s(x)
    ensures Falling(xs, s)
  {
    forall i, j | 0 <= i < j < |xs| ensures s(xs[i]) > s(xs[j]) {
      assert xs[i] in xs && xs[j] in xs && r(xs[i]) > r(xs[j]);
    }
  }

  /** A save makes its peer the latest and leaves the rank of every other. */
  lemma RankAfterSave(before: seq<string>, p: string, x: string)
    ensures var r := Rank(before + [p]);
            r(p) == |before| && Rank(before)(x) < |before| && (x != p ==> r(x) == Rank(before)(x))
  {
    var h := before + [p];
    assert h[..|h| - 1] == before;
    if x in before {
      LastIndexBound(before, x);
    }
  }

  /** `Newest` is the list it is meant to be. */
  lemma {:induction false} NewestIsByLatestSave(h: seq<string>)
    ensures ByLatestSave(h, Newest(h))
  {
    if h != [] {
      var before, p := h[..|h| - 1], h[|h| - 1];
      assert h == before + [p];
      NewestIsByLatestSave(before);
      var ys := Without(Newest(before), p);
      WithoutKeeps(Newest(before), p);
      WithoutKeepsOrder(Newest(before), p, Rank(before));
      forall x | x in ys ensures Rank(before)(x) == Rank(h)(x) < Rank(h)(p) { RankAfterSave(before, p, x); }
      FallingAgrees(ys, Rank(before), Rank(h));
      FallingBehind(p, ys, Rank(h));
    }
  }

  lemma {:induction false} LastIndexBound(h: seq<string>, p: string)
    requires p in h
    ensures LastIndex(h, p) < |h| && h[LastIndex(h, p)] == p
  {
    if h[|h| - 1] != p {
      LastIndexBound(h[..|h| - 1], p);
    }
  }

  lemma NewestIsDistinct(h: seq<string>)
    ensures Distinct(Newest(h))
  {
    NewestIsByLatestSave(h);
    var xs := Newest(h);
    forall i, j | 0 <= i < j < |xs| ensures xs[i] != xs[j] { assert Rank(h)(xs[i]) > Rank(h)(xs[j]); }
  }

  // ----- Cutting at every save loses nothing -----

  lemma CutOfCons(x: string, xs: seq<string>, n: nat)
    ensures Cut([x] + xs, n + 1) == [x] + Cut(xs, n)
  {
  }

  lemma DistinctTail(xs: seq<string>)
    requires xs != [] && Distinct(xs)
    ensures Distinct(xs[1..]) && xs[0] !in xs[1..]
  {
  }

  lemma {:induction false} NothingToTakeOut(xs: seq<string>, p: string)
    requires p !in xs
    ensures Without(xs, p) == xs
  {
    if xs != [] {
      NothingToTakeOut(xs[1..], p);
    }
  }

  /** Cutting before and after taking one entry out differs only past the cut. */
  lemma {:induction false} CutThenTakeOut(xs: seq<string>, p: string, n: nat)
    requires Distinct(xs)
    ensures Cut(Without(Cut(xs, n + 1), p), n) == Cut(Without(xs, p), n)
    decreases |xs|
  {
    if xs != [] && n > 0 {
      var x, rest := xs[0], xs[1..];
      var shorter := Cut(rest, n);
      DistinctTail(xs);
      assert xs == [x] + rest;
      CutOfCons(x, rest, n);
      WithoutCons(x, rest, p);
      WithoutCons(x, shorter, p);
      if x == p {
        NothingToTakeOut(rest, p);
        NothingToTakeOut(shorter, p);
      } else {
        CutThenTakeOut(rest, p, n - 1);
        TakeOutBehind(x, rest, p, n);
      }
    }
  }

  lemma TakeOutBehind(x: string, rest: seq<string>, p: string, n: nat)
    requires x != p && n > 0 && Cut(Without(Cut(rest, n), p), n - 1) == Cut(Without(rest, p), n - 1)
    ensures Cut(Without(Cut([x] + rest, n + 1), p), n) == Cut(Without([x] + rest, p), n)
  {
    CutOfCons(x, rest, n);
    WithoutCons(x, rest, p);
    WithoutCons(x, Cut(rest, n), p);
    CutOfCons(x, Without(Cut(rest, n), p), n - 1);
    CutOfCons(x, Without(rest, p), n - 1);
  }

  lemma WithoutCons(x: string, xs: seq<string>, p: string)
    ensures Without([x] + xs, p) == if x == p then Without(xs, p) else [x] + Without(xs, p)
  {
    assert ([x] + xs)[1..] == xs;
  }

  /** The file after a run of saves that starts from no file. */
  function After(h: seq<Save>): Option<LastConnection> {
    if h == [] then None else Some(Saved(After(h[..|h| - 1]), h[|h| - 1]))
  }

  /** The peers of the latest saves that still count: back to the last change of a named carrier. */
  function Counting(h: seq<Save>): seq<string> {
    if h == [] then []
    else
      var s := h[|h| - 1];
      var keeps := |h| > 1 && (h[|h| - 2].carrier == "" || h[|h| - 2].carrier == s.carrier);
      (if keeps then Counting(h[..|h| - 1]) else []) + [s.peer]
  }

  lemma {:induction false} RingIsCut(h: seq<Save>)
    requires h != []
    ensures After(h).value.recent == Cut(Newest(Counting(h)), RECENT_CAP)
    ensures var r, s := After(h).value, h[|h| - 1]; r.peer == s.peer && r.profile == s.profile && r.carrier == s.carrier
  {
    var s, before := h[|h| - 1], h[..|h| - 1];
    var counting := Counting(h);
    if before == [] {
      assert Newest([s.peer]) == [s.peer] + Without(Newest([]), s.peer);
      assert counting == [s.peer];
    } else {
      RingIsCut(before);
      var earlier := if h[|h| - 2].carrier == "" || h[|h| - 2].carrier == s.carrier then Counting(before) else [];
      assert counting == earlier + [s.peer] && counting[..|counting| - 1] == earlier;
      NewestIsDistinct(earlier);
      CutThenTakeOut(Newest(earlier), s.peer, RECENT_CAP - 1);
      assert CarriedOver(After(before), s.carrier) == Cut(Newest(earlier), RECENT_CAP);
      CutBehindHead(s.peer, Without(Cut(Newest(earlier), RECENT_CAP), s.peer), Without(Newest(earlier), s.peer));
    }
  }

  /**
  The capped list agrees with the full history: after any run of saves it is the
  distinct peers of the saves that still count, ordered by latest save, newest
  first, cut once at the cap.
  */
  lemma RingAgreesWithHistory(h: seq<Save>)
    requires h != []
    ensures After(h).value.recent == Newest(Counting(h))[..Min(8, |Newest(Counting(h))|)]
    ensures var r, s := After(h).value, h[|h| - 1]; r.peer == s.peer && r.profile == s.profile && r.carrier == s.carrier
  {
    var xs := Newest(Counting(h));
    RingIsCut(h);
    assert xs[..|xs|] == xs;
  }

  lemma CutBehindHead(p: string, xs: seq<string>, ys: seq<string>)
    requires Cut(xs, RECENT_CAP - 1) == Cut(ys, RECENT_CAP - 1)
    ensures Cut([p] + xs, RECENT_CAP) == Cut([p] + ys, RECENT_CAP)
  {
    assert Cut([p] + xs, RECENT_CAP) == [p] + Cut(xs, RECENT_CAP - 1);
    assert Cut([p] + ys, RECENT_CAP) == [p] + Cut(ys, RECENT_CAP - 1);
  }

  /** Under one carrier every save counts, so the list is that of the whole history. */
  lemma {:induction false} OneCarrierCountsAll(h: seq<Save>, carrier: string)
    requires forall s :: s in h ==> s.carrier == carrier
    ensures |Counting(h)| == |h| && forall i :: 0 <= i < |h| ==> Counting(h)[i] == h[i].peer
  {
    if h != [] {
      forall s | s in h[..|h| - 1] ensures s.carrier == carrier { assert s in h; }
      OneCarrierCountsAll(h[..|h| - 1], carrier);
      assert |h| > 1 ==> h[|h| - 2] in h;
      assert h[|h| - 1] in h;
    }
  }

  // ----- Which of them are usable -----

  /** Each value once, at its first occurrence. */
  function FirstOccurrences<A(==)>(xs: seq<A>): seq<A> {
    if xs == [] then []
    else
      var before := FirstOccurrences(xs[..|xs| - 1]);
      if xs[|xs| - 1] in before then before else before + [xs[|xs| - 1]]
  }

  /** The entries that parse as addresses, parsed. */
  function Parsed<A>(raw: seq<string>, parse: string -> Option<A>): seq<A> {
    if raw == [] then []
    else Parsed(raw[..|raw| - 1], parse) + (if parse(raw[|raw| - 1]).Some? then [parse(raw[|raw| - 1]).value] else [])
  }

  function Usable<A(==)>(cached: LastConnection, carrier: string, parse: string -> Option<A>): seq<A> {
    if cached.carrier != "" && cached.carrier != carrier then []
    else FirstOccurrences(Parsed([cached.peer] + cached.recent, parse))
  }

  /** One more entry, and what it adds to the distinct addresses. */
  lemma ParsedSnoc<A>(raw: seq<string>, r: string, parse: string -> Option<A>)
    ensures var before, after := FirstOccurrences(Parsed(raw, parse)), FirstOccurrences(Parsed(raw + [r], parse));
            after == if parse(r).Some? && parse(r).value !in before then before + [parse(r).value] else before
  {
    var p := Parsed(raw, parse);
    assert (raw + [r])[..|raw|] == raw;
    if parse(r).Some? {
      assert (p + [parse(r).value])[..|p|] == p;
    } else {
      assert p + [] == p;
    }
  }

  function Members<A(==)>(xs: seq<A>): set<A> { set x | x in xs }

  lemma MembersSnoc<A>(xs: seq<A>, x: A)
    ensures Members(xs + [x]) == Members(xs) + {x}
  {
  }

  /** `usable_peers`. */
  method UsablePeers<A(==)>(cached: LastConnection, carrier: string, parse: string -> Option<A>) returns (out: seq<A>)
    ensures out == Usable(cached, carrier, parse)
  {
    if cached.carrier != "" && cached.carrier != carrier {
      return [];
    }
    out := [];
    var seen: set<A> := {};
    var raws := [cached.peer] + cached.recent;
    ghost var done: seq<string> := [];
    for i := 0 to |raws|
      invariant done == raws[..i]
      invariant out == FirstOccurrences(Parsed(done, parse))
      invariant seen == Members(out)
    {
      var raw := raws[i];
      var addr := parse(raw);
      ParsedSnoc(done, raw, parse);
      if addr.Some? && addr.value !in seen {
        MembersSnoc(out, addr.value);
        seen := seen + {addr.value};
        out := out + [addr.value];
      }
      done := done + [raw];
    }
    assert done == raws;
  }

  lemma {:induction false} FirstOccurrencesAre<A>(xs: seq<A>)
    ensures var f := FirstOccurrences(xs);
            && |f| <= |xs| && (forall x :: x in f <==> x in xs)
            && (forall i, j :: 0 <= i < j < |f| ==> f[i] != f[j])
            && (xs != [] ==> f != [] && f[0] == xs[0])
  {
    if xs != [] {
      FirstOccurrencesAre(xs[..|xs| - 1]);
      assert xs == xs[..|xs| - 1] + [xs[|xs| - 1]];
    }
  }

  lemma {:induction false} ParsedAre<A>(raw: seq<string>, parse: string -> Option<A>)
    ensures var p := Parsed(raw, parse);
            && |p| <= |raw| && (forall a :: a in p <==> exists r :: r in raw && parse(r) == Some(a))
            && (raw != [] && parse(raw[0]).Some? ==> p != [] && p[0] == parse(raw[0]).value)
  {
    if raw != [] {
      ParsedAre(raw[..|raw| - 1], parse);
      assert raw == raw[..|raw| - 1] + [raw[|raw| - 1]];
    }
  }

  /** How far into a list the first entry that parses to `a` stands. */
  ghost function FirstAt<A>(raw: seq<string>, parse: string -> Option<A>, a: A): nat {
    if raw == [] || parse(raw[0]) == Some(a) then 0 else 1 + FirstAt(raw[1..], parse, a)
  }

  /** Addresses come in the order of the first entries that parse to them. */
  ghost predicate InOrder<A>(out: seq<A>, raw: seq<string>, parse: string -> Option<A>) {
    forall i, j :: 0 <= i < j < |out| ==> FirstAt(raw, parse, out[i]) < FirstAt(raw, parse, out[j])
  }

  lemma {:induction false} FirstAtSnoc<A>(raw: seq<string>, r: string, parse: string -> Option<A>, a: A)
    ensures FirstAt(raw, parse, a) <= |raw|
    ensures FirstAt(raw, parse, a) < |raw| ==> FirstAt(raw + [r], parse, a) == FirstAt(raw, parse, a)
    ensures FirstAt(raw, parse, a) == |raw| ==> FirstAt(raw + [r], parse, a) >= |raw|
    ensures a in Parsed(raw, parse) ==> FirstAt(raw, parse, a) < |raw|
  {
    ParsedAre(raw, parse);
    if raw != [] {
      FirstAtSnoc(raw[1..], r, parse, a);
      ParsedAre(raw[1..], parse);
      TailOfAppend(raw, [r]);
      assert raw == [raw[0]] + raw[1..];
    }
  }

  /** Every address offered from a list stands in it. */
  lemma OfferedIsListed<A>(raw: seq<string>, parse: string -> Option<A>, k: nat)
    requires k < |FirstOccurrences(Parsed(raw, parse))|
    ensures FirstAt(raw, parse, FirstOccurrences(Parsed(raw, parse))[k]) < |raw|
  {
    OccurrenceIsIn(Parsed(raw, parse), k);
    FirstAtSnoc(raw, "", parse, FirstOccurrences(Parsed(raw, parse))[k]);
  }

  lemma {:induction false} OccurrenceIsIn<A>(xs: seq<A>, k: nat)
    requires k < |FirstOccurrences(xs)|
    ensures FirstOccurrences(xs)[k] in xs
    decreases |xs|
  {
    if xs != [] {
      var before := xs[..|xs| - 1];
      assert xs == before + [xs[|xs| - 1]];
      if k < |FirstOccurrences(before)| {
        OccurrenceIsIn(before, k);
      }
    }
  }

  lemma OrderStays<A>(out: seq<A>, raw: seq<string>, r: string, parse: string -> Option<A>)
    requires InOrder(out, raw, parse) && forall k :: 0 <= k < |out| ==> FirstAt(raw, parse, out[k]) < |raw|
    ensures InOrder(out, raw + [r], parse)
  {
    forall i, j | 0 <= i < j < |out|
      ensures FirstAt(raw + [r], parse, out[i]) < FirstAt(raw + [r], parse, out[j])
    {
      FirstAtSnoc(raw, r, parse, out[i]);
      FirstAtSnoc(raw, r, parse, out[j]);
    }
  }

  lemma OrderGrows<A>(out: seq<A>, raw: seq<string>, r: string, parse: string -> Option<A>, a: A)
    requires InOrder(out, raw, parse) && forall k :: 0 <= k < |out| ==> FirstAt(raw, parse, out[k]) < |raw|
    requires a !in Parsed(raw, parse)
    ensures InOrder(out + [a], raw + [r], parse)
  {
    var more := out + [a];
    OrderStays(out, raw, r, parse);
    NewComesLast(raw, r, parse, a);
    forall i, j | 0 <= i < j < |more|
      ensures FirstAt(raw + [r], parse, more[i]) < FirstAt(raw + [r], parse, more[j])
    {
      if j < |out| {
        assert more[i] == out[i] && more[j] == out[j];
      } else {
        assert more[i] == out[i] && more[j] == a;
        FirstAtSnoc(raw, r, parse, out[i]);
      }
    }
  }

  lemma {:induction false} OfferedInOrder<A>(raw: seq<string>, parse: string -> Option<A>)
    ensures InOrder(FirstOccurrences(Parsed(raw, parse)), raw, parse)
    decreases |raw|
  {
    if raw != [] {
      var before, r := raw[..|raw| - 1], raw[|raw| - 1];
      var was := FirstOccurrences(Parsed(before, parse));
      assert raw == before + [r];
      OfferedInOrder(before, parse);
      ParsedSnoc(before, r, parse);
      forall k | 0 <= k < |was| ensures FirstAt(before, parse, was[k]) < |before| {
        OfferedIsListed(before, parse, k);
      }
      if parse(r).Some? && parse(r).value !in was {
        OnlyListedIsOffered(before, parse, parse(r).value);
        OrderGrows(was, before, r, parse, parse(r).value);
      } else {
        OrderStays(was, before, r, parse);
      }
    }
  }

  lemma OnlyListedIsOffered<A>(raw: seq<string>, parse: string -> Option<A>, a: A)
    requires a !in FirstOccurrences(Parsed(raw, parse))
    ensures a !in Parsed(raw, parse)
  {
    FirstOccurrencesAre(Parsed(raw, parse));
  }

  lemma {:induction false} NewComesLast<A>(raw: seq<string>, r: string, parse: string -> Option<A>, a: A)
    requires a !in Parsed(raw, parse)
    ensures FirstAt(raw, parse, a) == |raw| && FirstAt(raw + [r], parse, a) >= |raw|
  {
    ParsedAre(raw, parse);
    if raw != [] {
      assert raw[0] in raw;
      ParsedAre(raw[1..], parse);
      assert forall x :: x in raw[1..] ==> x in raw;
      NewComesLast(raw[1..], r, parse, a);
      TailOfAppend(raw, [r]);
    }
  }

  /** Repeating the first entry in front changes nothing about the order. */
  lemma OrderWithoutRepeat<A>(out: seq<A>, p: string, ring: seq<string>, parse: string -> Option<A>)
    requires ring != [] && ring[0] == p && InOrder(out, [p] + ring, parse)
    ensures InOrder(out, ring, parse)
  {
    assert ([p] + ring)[1..] == ring;
  }

  lemma RingIsOffered<A>(p: string, ring: seq<string>, parse: string -> Option<A>)
    requires ring != [] && ring[0] == p
    ensures var out := FirstOccurrences(Parsed([p] + ring, parse));
            && (forall a :: a in out <==> exists r :: r in ring && parse(r) == Some(a))
            && (forall i, j :: 0 <= i < j < |out| ==> out[i] != out[j])
            && (parse(p).Some? ==> out != [] && out[0] == parse(p).value)
  {
    var raws := [p] + ring;
    FirstOccurrencesAre(Parsed(raws, parse));
    ParsedAre(raws, parse);
    assert forall r :: r in raws <==> r in ring;
  }

  /**
  After any run of saves, the gateways offered to the same carrier are exactly
  the parsed peers of the capped list, each once and in its order, so starting
  with the latest peer when that one parses; a different named carrier is offered
  none.
  */
  lemma OffersTheRing<A>(h: seq<Save>, carrier: string, parse: string -> Option<A>)
    requires h != []
    ensures var last, out, ring := h[|h| - 1], Usable(After(h).value, carrier, parse),
                                   Cut(Newest(Counting(h)), RECENT_CAP);
            if last.carrier != "" && last.carrier != carrier then out == []
            else
              && (forall a :: a in out <==> exists r :: r in ring && parse(r) == Some(a))
              && (forall i, j :: 0 <= i < j < |out| ==> out[i] != out[j])
              && InOrder(out, ring, parse)
              && (parse(last.peer).Some? ==> out != [] && out[0] == parse(last.peer).value)
  {
    RingIsCut(h);
    var p, ring := After(h).value.peer, After(h).value.recent;
    assert ring[0] == p;
    RingIsOffered(p, ring, parse);
    OfferedInOrder([p] + ring, parse);
    OrderWithoutRepeat(FirstOccurrences(Parsed([p] + ring, parse)), p, ring, parse);
  }
}
