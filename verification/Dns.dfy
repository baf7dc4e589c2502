/** The DNS query for a name's HTTPS record, and the test that decides which replies answer it. */
module Dns {
  import opened Common
  import opened Sniff

  // ----- Names -----

  /** The text up to the first dot, and what follows it. */
  function FirstLabel(name: bytes): (r: (bytes, Option<bytes>))
    ensures |r.0| <= |name| && (r.1.Some? ==> |r.1.value| < |name|)
  {
    if name == [] then ([], None)
    else if name[0] == 46 then ([], Some(name[1..]))
    else
      var (l, rest) := FirstLabel(name[1..]);
      ([name[0]] + l, rest)
  }

  /** The labels of a name, empty ones skipped. */
  function Labels(name: bytes): seq<bytes>
    decreases |name|
  {
    var (l, rest) := FirstLabel(name);
    (if l == [] then [] else [l]) + if rest.None? then [] else Labels(rest.value)
  }

  lemma {:induction false} LabelsAreNotEmpty(name: bytes)
    ensures forall l :: l in Labels(name) ==> l != []
    decreases |name|
  {
    var (l, rest) := FirstLabel(name);
    if rest.Some? {
      LabelsAreNotEmpty(rest.value);
    }
  }

  /** Labels with a run of dots before, between and behind them. */
  function Joined(ls: seq<bytes>, dots: seq<nat>): bytes
    requires |dots| == |ls| + 1
  {
    if ls == [] then Dots(dots[0]) else Dots(dots[0]) + ls[0] + Joined(ls[1..], dots[1..])
  }

  /** The name spells these labels: they are not empty, hold no dot, and dots separate them. */
  ghost predicate Spells(name: bytes, ls: seq<bytes>, dots: seq<nat>) {
    && |dots| == |ls| + 1
    && (forall l :: l in ls ==> l != [] && 46 !in l)
    && (forall i :: 0 < i < |ls| ==> dots[i] > 0)
    && name == Joined(ls, dots)
  }

  lemma {:induction false} DotsAreSkipped(n: nat, rest: bytes)
    ensures Labels(Dots(n) + rest) == Labels(rest)
  {
    if n == 0 {
      assert Dots(n) + rest == rest;
    } else {
      DotsAreSkipped(n - 1, rest);
      assert (Dots(n) + rest)[1..] == Dots(n - 1) + rest;
      assert [] + Labels(Dots(n - 1) + rest) == Labels(Dots(n - 1) + rest);
    }
  }

  lemma {:induction false} FirstOfJoined(l: bytes, rest: bytes)
    requires 46 !in l && (rest == [] || rest[0] == 46)
    ensures FirstLabel(l + rest) == (l, if rest == [] then None else Some(rest[1..]))
  {
    if l == [] {
      assert l + rest == rest;
    } else {
      FirstOfJoined(l[1..], rest);
      assert (l + rest)[1..] == l[1..] + rest;
      assert [l[0]] + l[1..] == l;
    }
  }

  lemma LabelInFront(l: bytes, rest: bytes)
    requires l != [] && 46 !in l && (rest == [] || rest[0] == 46)
    ensures Labels(l + rest) == [l] + Labels(rest)
  {
    FirstOfJoined(l, rest);
    if rest != [] {
      FirstOfJoined([], rest);
      assert [] + rest == rest;
      assert [] + Labels(rest[1..]) == Labels(rest[1..]);
    }
  }

  lemma LabelsOfDots(n: nat)
    ensures Labels(Dots(n)) == []
  {
    DotsAreSkipped(n, []);
    assert Dots(n) + [] == Dots(n);
  }

  /** Splitting undoes joining: a name that spells some labels is split into them. */
  lemma {:induction false} LabelsOfJoined(name: bytes, ls: seq<bytes>, dots: seq<nat>)
    requires Spells(name, ls, dots)
    ensures Labels(name) == ls
    decreases |ls|
  {
    if ls == [] {
      LabelsOfDots(dots[0]);
    } else {
      assert ls[0] in ls;
      var rest := Joined(ls[1..], dots[1..]);
      forall l | l in ls[1..] ensures l != [] && 46 !in l { assert l in ls; }
      LabelsOfJoined(rest, ls[1..], dots[1..]);
      Assoc(Dots(dots[0]), ls[0], rest);
      DotsAreSkipped(dots[0], ls[0] + rest);
      LabelInFront(ls[0], rest);
    }
  }

  lemma {:induction false} FirstLabelSplits(name: bytes)
    ensures var (l, rest) := FirstLabel(name);
            46 !in l && name == if rest.None? then l else l + ([46] + rest.value)
  {
    if name != [] && name[0] != 46 {
      var (l, rest) := FirstLabel(name[1..]);
      FirstLabelSplits(name[1..]);
      assert name == [name[0]] + name[1..];
      if rest.Some? {
        Assoc([name[0]], l, [46] + rest.value);
      }
    } else if name != [] {
      assert name == [] + ([46] + name[1..]);
    }
  }

  lemma OneMoreDot(ls: seq<bytes>, dots: seq<nat>)
    requires |dots| == |ls| + 1
    ensures Joined(ls, dots[0 := dots[0] + 1]) == [46] + Joined(ls, dots)
  {
    assert Dots(dots[0] + 1) == [46] + Dots(dots[0]);
    if ls != [] {
      assert dots[0 := dots[0] + 1][1..] == dots[1..];
      var rest := Joined(ls[1..], dots[1..]);
      assert [46] + Dots(dots[0]) + ls[0] + rest == [46] + (Dots(dots[0]) + ls[0] + rest);
    }
  }

  lemma OneMoreLabel(l: bytes, ls: seq<bytes>, dots: seq<nat>)
    requires |dots| == |ls| + 1
    ensures Joined([l] + ls, [0] + dots) == l + Joined(ls, dots)
  {
    assert ([l] + ls)[1..] == ls && ([0] + dots)[1..] == dots;
    assert Dots(0) + l == l;
  }

  /** Every name spells exactly one list of labels. */
  lemma {:induction false} EveryNameSpells(name: bytes) returns (ls: seq<bytes>, dots: seq<nat>)
    ensures Spells(name, ls, dots) && ls == Labels(name)
    decreases |name|
  {
    var (l, rest) := FirstLabel(name);
    FirstLabelSplits(name);
    ls, dots := [], [0];
    if rest.Some? {
      ls, dots := EveryNameSpells(rest.value);
      OneMoreDot(ls, dots);
      dots := dots[0 := dots[0] + 1];
    }
    if l != [] {
      OneMoreLabel(l, ls, dots);
      ls, dots := [l] + ls, [0] + dots;
    }
    LabelsOfJoined(name, ls, dots);
  }

  /** Labels as `build_query` writes them: a length byte, truncated to eight bits, and the text. */
  function Written(ls: seq<bytes>): bytes {
    if ls == [] then [] else [(|ls[0]| % 256) as byte] + ls[0] + Written(ls[1..])
  }

  /** An uncompressed name on the wire: its labels, and its length with the closing zero. */
  function ReadName(b: bytes): (r: Option<(seq<bytes>, nat)>)
    ensures r.Some? ==> 1 <= r.value.1 <= |b|
    decreases |b|
  {
    if b == [] then None
    else if b[0] == 0 then Some(([], 1))
    else
      var n := 1 + b[0] as int;
      if n > |b| then None
      else
        var rest := ReadName(b[n..]);
        if rest.None? then None else Some(([b[1..n]] + rest.value.0, n + rest.value.1))
  }

  predicate SameIgnoringCase(a: bytes, b: bytes) { LowerAll(a) == LowerAll(b) }

  /** The same byte, or the two cases of one ASCII letter. */
  predicate SameLetter(x: byte, y: byte) {
    x == y || (97 <= x <= 122 && y + 32 == x) || (97 <= y <= 122 && x + 32 == y)
  }

  /** The same text but for the case of ASCII letters. */
  ghost predicate SameText(a: bytes, b: bytes) {
    |a| == |b| && forall i :: 0 <= i < |a| ==> SameLetter(a[i], b[i])
  }

  lemma CaseIsIgnored(a: bytes, b: bytes)
    ensures SameIgnoringCase(a, b) <==> SameText(a, b)
  {
    if SameIgnoringCase(a, b) {
      assert |a| == |LowerAll(a)| == |LowerAll(b)| == |b|;
      forall i | 0 <= i < |a| ensures SameLetter(a[i], b[i]) {
        assert LowerAll(a)[i] == LowerAll(b)[i];
      }
    }
  }

  ghost predicate SameLabels(a: seq<bytes>, b: seq<bytes>) {
    |a| == |b| && forall i :: 0 <= i < |a| ==> SameText(a[i], b[i])
  }

  /** The question behind the header: a name with these labels, the type, and the class `IN`. */
  ghost predicate Asks(q: bytes, id: nat, ls: seq<bytes>, qtype: nat) {
    && |q| >= 12 && q[0] as int * 256 + q[1] as int == id
    && q[2] == 1 && q[3] == 0 && q[4] == 0 && q[5] == 1
    && q[6] == q[7] == q[8] == q[9] == q[10] == q[11] == 0
    && ReadName(q[12..]).Some? && ReadName(q[12..]).value.0 == ls
    && var n := 12 + ReadName(q[12..]).value.1;
    && |q| == n + 4 && q[n] as int * 256 + q[n + 1] as int == qtype && q[n + 2] == 0 && q[n + 3] == 1
  }

  /** A reply with this id and one question, for a name with these labels but for their case, and this type. */
  ghost predicate Answers(msg: bytes, id: nat, ls: seq<bytes>, qtype: nat) {
    && |msg| >= 12 && msg[0] as int * 256 + msg[1] as int == id && msg[2] >= 0x80
    && msg[4] == 0 && msg[5] == 1
    && ReadName(msg[12..]).Some? && SameLabels(ReadName(msg[12..]).value.0, ls)
    && var n := 12 + ReadName(msg[12..]).value.1;
    && n + 4 <= |msg| && msg[n] as int * 256 + msg[n + 1] as int == qtype
  }

  // ----- The query -----

  /** The id, recursion desired, one question and nothing else. */
  function Header(id: nat): bytes
    requires id <= 0xffff
  {
    [id / 256, id % 256, 1, 0, 0, 1, 0, 0, 0, 0, 0, 0]
  }

  /** The end of the name, the type, and the class `IN`. */
  function Question(qtype: nat): bytes
    requires qtype <= 0xffff
  {
    [0, qtype / 256, qtype % 256, 0, 1]
  }

  function Query(name: bytes, qtype: nat, id: nat): bytes
    requires qtype <= 0xffff && id <= 0xffff
  {
    Header(id) + Written(Labels(name)) + Question(qtype)
  }

  lemma {:induction false} WrittenSnoc(ls: seq<bytes>, l: bytes)
    ensures Written(ls + [l]) == Written(ls) + ([(|l| % 256) as byte] + l)
  {
    if ls == [] {
      assert ls + [l] == [l];
      assert Written([l]) == [(|l| % 256) as byte] + l + [];
    } else {
      assert (ls + [l])[1..] == ls[1..] + [l];
      WrittenSnoc(ls[1..], l);
    }
  }

  /** `build_query`, with its random id as a parameter. */
  method BuildQuery(name: bytes, qtype: nat, id: nat) returns (q: bytes)
    requires qtype <= 0xffff && id <= 0xffff
    ensures q == Query(name, qtype, id)
    ensures forall ls, dots :: Spells(name, ls, dots) && (forall l :: l in ls ==> |l| < 256) ==> Asks(q, id, ls, qtype)
  {
    forall ls, dots | Spells(name, ls, dots) && (forall l :: l in ls ==> |l| < 256)
      ensures Asks(Query(name, qtype, id), id, ls, qtype)
    {
      QueryAsks(name, ls, dots, qtype, id);
    }
    var head: bytes := [id / 256, id % 256, 1, 0, 0, 1, 0, 0, 0, 0, 0, 0];
    q := head;
    assert head + [] == head;
    var labels := Labels(name);
    for i := 0 to |labels|
      invariant q == head + Written(labels[..i])
    {
      assert labels[..i + 1] == labels[..i] + [labels[i]];
      WrittenSnoc(labels[..i], labels[i]);
      Assoc(head, Written(labels[..i]), [(|labels[i]| % 256) as byte] + labels[i]);
      q := q + ([(|labels[i]| % 256) as byte] + labels[i]);
    }
    assert labels[..|labels|] == labels;
    q := q + [0, qtype / 256, qtype % 256, 0, 1];
  }

  // ----- Matching a reply -----

  /** Where the cursor stands after the expected labels, if the message has them at `pos`. */
  function MatchLabels(msg: bytes, pos: nat, ls: seq<bytes>): Option<nat>
    decreases |ls|
  {
    if ls == [] then Some(pos)
    else if pos >= |msg| || msg[pos] as int != |ls[0]| || pos + 1 + |ls[0]| > |msg| then None
    else if !SameIgnoringCase(msg[pos + 1..pos + 1 + |ls[0]|], ls[0]) then None
    else MatchLabels(msg, pos + 1 + |ls[0]|, ls[1..])
  }

  predicate HeaderMatches(msg: bytes, id: nat) {
    |msg| >= 12 && U16(msg[0], msg[1]) == id && msg[2] >= 0x80 && U16(msg[4], msg[5]) == 1
  }

  /** `response_matches`. */
  predicate Matches(msg: bytes, id: nat, name: bytes, qtype: nat) {
    HeaderMatches(msg, id) &&
    var end := MatchLabels(msg, 12, Labels(name));
    end.Some? && end.value < |msg| && msg[end.value] == 0 && end.value + 5 <= |msg| &&
    U16(msg[end.value + 1], msg[end.value + 2]) == qtype
  }

  lemma MatchStep(msg: bytes, pos: nat, labels: seq<bytes>, i: nat)
    requires i < |labels|
    ensures var n := pos + 1 + |labels[i]|;
            MatchLabels(msg, pos, labels[i..]) ==
              if n <= |msg| && msg[pos] as int == |labels[i]| && SameIgnoringCase(msg[pos + 1..n], labels[i])
              then MatchLabels(msg, n, labels[i + 1..]) else None
  {
    assert labels[i..][1..] == labels[i + 1..];
  }

  /** The loop over the labels of the name asked for. */
  method WalkLabels(msg: bytes, start: nat, labels: seq<bytes>) returns (end: Option<nat>)
    ensures end == MatchLabels(msg, start, labels)
  {
    var pos: nat := start;
    assert labels[0..] == labels;
    for i := 0 to |labels|
      invariant MatchLabels(msg, pos, labels[i..]) == MatchLabels(msg, start, labels)
    {
      MatchStep(msg, pos, labels, i);
      if pos >= |msg| {
        return None;
      }
      var len := msg[pos] as int;
      if len != |labels[i]| {
        return None;
      }
      pos := pos + 1;
      if pos + len > |msg| {
        return None;
      }
      if !SameIgnoringCase(msg[pos..pos + len], labels[i]) {
        return None;
      }
      pos := pos + len;
    }
    end := Some(pos);
  }

  method ResponseMatches(msg: bytes, id: nat, name: bytes, qtype: nat) returns (ok: bool)
    ensures ok == Matches(msg, id, name, qtype)
    ensures forall ls, dots :: Spells(name, ls, dots) ==> (ok <==> Answers(msg, id, ls, qtype))
  {
    forall ls, dots | Spells(name, ls, dots)
      ensures Matches(msg, id, name, qtype) <==> Answers(msg, id, ls, qtype)
    {
      MatchingIsExact(msg, id, name, ls, dots, qtype);
    }
    if |msg| < 12 || U16(msg[0], msg[1]) != id || msg[2] < 0x80 || U16(msg[4], msg[5]) != 1 {
      return false;
    }
    var end := WalkLabels(msg, 12, Labels(name));
    if end.None? {
      return false;
    }
    var pos := end.value;
    if pos >= |msg| || msg[pos] != 0 {
      return false;
    }
    pos := pos + 1;
    if pos + 4 > |msg| {
      return false;
    }
    return U16(msg[pos], msg[pos + 1]) == qtype;
  }

  /** The cursor walk succeeds, and is followed by a zero, exactly when the name on the wire has these labels. */
  lemma {:induction false} WalkReadsTheName(msg: bytes, pos: nat, ls: seq<bytes>)
    requires pos <= |msg| && forall l :: l in ls ==> l != []
    ensures var end, r := MatchLabels(msg, pos, ls), ReadName(msg[pos..]);
            && (end.Some? && end.value < |msg| && msg[end.value] == 0 <==> r.Some? && SameLabels(r.value.0, ls))
            && (end.Some? && end.value < |msg| && msg[end.value] == 0 ==> r.Some? && end.value + 1 == pos + r.value.1)
    decreases |ls|
  {
    var r := ReadName(msg[pos..]);
    if ls == [] {
      assert pos < |msg| ==> msg[pos..][0] == msg[pos];
    } else {
      assert ls[0] in ls;
      var n := 1 + |ls[0]|;
      if pos < |msg| && msg[pos] as int == |ls[0]| && pos + n <= |msg| {
        forall l | l in ls[1..] ensures l != [] { assert l in ls; }
        WalkReadsTheName(msg, pos + n, ls[1..]);
        ReadStep(msg, pos, n);
        if r.Some? {
          SameLabelsCons(msg[pos + 1..pos + n], ReadName(msg[pos + n..]).value.0, ls);
        }
      } else if r.Some? {
        SameHeadLength(r.value.0, ls);
      }
    }
  }

  lemma ReadStep(msg: bytes, pos: nat, n: nat)
    requires 1 < n && pos + n <= |msg| && msg[pos] as int == n - 1
    ensures var rest := ReadName(msg[pos + n..]);
            ReadName(msg[pos..]) ==
              if rest.None? then None else Some(([msg[pos + 1..pos + n]] + rest.value.0, n + rest.value.1))
  {
    assert msg[pos..][n..] == msg[pos + n..] && msg[pos..][1..n] == msg[pos + 1..pos + n];
  }

  lemma SameHeadLength(a: seq<bytes>, b: seq<bytes>)
    ensures SameLabels(a, b) && b != [] ==> |a[0]| == |b[0]|
  {
    if SameLabels(a, b) && b != [] {
      assert SameText(a[0], b[0]);
    }
  }

  lemma SameLabelsCons(l: bytes, rest: seq<bytes>, ls: seq<bytes>)
    requires ls != []
    ensures SameLabels([l] + rest, ls) <==> SameIgnoringCase(l, ls[0]) && SameLabels(rest, ls[1..])
  {
    CaseIsIgnored(l, ls[0]);
    if SameLabels([l] + rest, ls) {
      assert SameText(([l] + rest)[0], ls[0]);
      forall i | 0 <= i < |rest| ensures SameText(rest[i], ls[1..][i]) {
        assert SameText(([l] + rest)[i + 1], ls[i + 1]);
      }
    }
  }

  lemma HeaderSpelled(msg: bytes, id: nat)
    ensures HeaderMatches(msg, id) <==>
              && |msg| >= 12 && msg[0] as int * 256 + msg[1] as int == id && msg[2] >= 0x80
              && msg[4] == 0 && msg[5] == 1
  {
  }

  lemma MatchesTheName(msg: bytes, id: nat, name: bytes, qtype: nat)
    ensures Matches(msg, id, name, qtype) <==> Answers(msg, id, Labels(name), qtype)
  {
    HeaderSpelled(msg, id);
    if HeaderMatches(msg, id) {
      LabelsAreNotEmpty(name);
      WalkReadsTheName(msg, 12, Labels(name));
    }
  }

  /**
  Matching is sound and complete: for every name, whichever labels it spells and
  however many dots are around and between them, a message is accepted if and only
  if it carries the id, is a reply, asks one question, and that question reads as
  exactly those labels, ignoring ASCII case, followed by the type and a class.
  */
  lemma MatchingIsExact(msg: bytes, id: nat, name: bytes, ls: seq<bytes>, dots: seq<nat>, qtype: nat)
    requires Spells(name, ls, dots)
    ensures Matches(msg, id, name, qtype) <==> Answers(msg, id, ls, qtype)
  {
    LabelsOfJoined(name, ls, dots);
    MatchesTheName(msg, id, name, qtype);
  }

  // ----- The query answers itself -----

  lemma ReadNameStep(b: bytes, l: bytes, ls: seq<bytes>, n: nat)
    requires 0 < |l| && b != [] && b[0] as int == |l| && 1 + |l| <= |b|
    requires b[1..1 + |l|] == l && ReadName(b[1 + |l|..]) == Some((ls, n))
    ensures ReadName(b) == Some(([l] + ls, 1 + |l| + n))
  {
  }

  lemma LabelLayout(c: byte, l: bytes, more: bytes, rest: bytes)
    ensures var b := ([c] + l + more) + rest;
            |b| >= 1 + |l| && b[0] == c && b[1..1 + |l|] == l && b[1 + |l|..] == more + rest
  {
    var b := ([c] + l + more) + rest;
    assert b == [c] + (l + (more + rest));
    assert b[1..] == l + (more + rest);
  }

  lemma WrittenStep(ls: seq<bytes>, z: bytes)
    requires ls != [] && 0 < |ls[0]| < 256
    requires ReadName(Written(ls[1..]) + z) == Some((ls[1..], |Written(ls[1..])| + 1))
    ensures ReadName(Written(ls) + z) == Some((ls, |Written(ls)| + 1))
  {
    var l, more := ls[0], Written(ls[1..]);
    var c := |l| as byte;
    assert Written(ls) == [c] + l + more;
    LabelLayout(c, l, more, z);
    ReadNameStep([c] + l + more + z, l, ls[1..], |more| + 1);
    assert [l] + ls[1..] == ls;
  }

  /** Labels short enough for a length byte, closed by a zero, read back as written. */
  lemma {:induction false} WrittenReadsBack(ls: seq<bytes>, z: bytes)
    requires (forall l :: l in ls ==> 0 < |l| < 256) && z != [] && z[0] == 0
    ensures ReadName(Written(ls) + z) == Some((ls, |Written(ls)| + 1))
  {
    if ls == [] {
      assert Written(ls) + z == z;
    } else {
      assert ls[0] in ls;
      forall m | m in ls[1..] ensures 0 < |m| < 256 { assert m in ls; }
      WrittenReadsBack(ls[1..], z);
      WrittenStep(ls, z);
    }
  }

  lemma SameLabelsReflexive(ls: seq<bytes>)
    ensures SameLabels(ls, ls)
  {
  }

  /** The query for a name whose labels fit their length bytes asks for exactly that name. */
  lemma QueryAsks(name: bytes, ls: seq<bytes>, dots: seq<nat>, qtype: nat, id: nat)
    requires Spells(name, ls, dots) && (forall l :: l in ls ==> |l| < 256) && qtype <= 0xffff && id <= 0xffff
    ensures Asks(Query(name, qtype, id), id, ls, qtype)
  {
    LabelsOfJoined(name, ls, dots);
    LabelsAsked(name, qtype, id);
  }

  lemma LabelsAsked(name: bytes, qtype: nat, id: nat)
    requires (forall l :: l in Labels(name) ==> |l| < 256) && qtype <= 0xffff && id <= 0xffff
    ensures Asks(Query(name, qtype, id), id, Labels(name), qtype)
  {
    LabelsAreNotEmpty(name);
    QueryReads(Labels(name), qtype, id);
  }

  /** A header, labels and a question ask for the name with those labels. */
  lemma QueryReads(ls: seq<bytes>, qtype: nat, id: nat)
    requires (forall l :: l in ls ==> 0 < |l| < 256) && qtype <= 0xffff && id <= 0xffff
    ensures Asks(Header(id) + Written(ls) + Question(qtype), id, ls, qtype)
  {
    QuestionLayout(Written(ls), qtype);
    WrittenReadsBack(ls, Question(qtype));
    HeaderLayout(id, Written(ls) + Question(qtype));
    Assoc(Header(id), Written(ls), Question(qtype));
  }

  lemma HeaderLayout(id: nat, body: bytes)
    requires id <= 0xffff
    ensures var q := Header(id) + body;
            && |q| == 12 + |body| && q[0] as int * 256 + q[1] as int == id
            && q[2] == 1 && q[3] == 0 && q[4] == 0 && q[5] == 1
            && q[6] == q[7] == q[8] == q[9] == q[10] == q[11] == 0
            && q[12..] == body && forall i :: 0 <= i < |body| ==> q[12 + i] == body[i]
  {
  }

  lemma QuestionLayout(w: bytes, qtype: nat)
    requires qtype <= 0xffff
    ensures var b, n := w + Question(qtype), |w| + 1;
            && |b| == n + 4 && b[n] as int * 256 + b[n + 1] as int == qtype && b[n + 2] == 0 && b[n + 3] == 1
            && Question(qtype)[0] == 0
  {
  }

  /**
  The query itself, marked as a reply and followed by anything, is accepted for
  its own id, name and type if and only if every label of the name fits its length
  byte; the labels of section 2.3.4 of RFC 1035, at most 63 bytes, always do.
  */
  lemma QueryAnswersItself(name: bytes, ls: seq<bytes>, dots: seq<nat>, qtype: nat, id: nat, tail: bytes)
    requires Spells(name, ls, dots) && qtype <= 0xffff && id <= 0xffff
    ensures |Query(name, qtype, id)| >= 12
    ensures Matches(Query(name, qtype, id)[2 := 0x81] + tail, id, name, qtype) <==>
            forall l :: l in ls ==> |l| < 256
  {
    var msg := Query(name, qtype, id)[2 := 0x81] + tail;
    LabelsOfJoined(name, ls, dots);
    QueryLayout(name, qtype, id, tail);
    if forall l :: l in Labels(name) ==> |l| < 256 {
      ShortLabelsMatch(msg, name, qtype, id, [qtype / 256, qtype % 256, 0, 1] + tail);
    }
    if Matches(msg, id, name, qtype) {
      MatchesHaveShortLabels(msg, id, name, qtype);
    }
  }

  lemma BehindHeader(head: bytes, body: bytes, tail: bytes, flag: byte)
    requires |head| == 12
    ensures var msg := (head + body)[2 := flag] + tail;
            && |msg| >= 12 && msg[0] == head[0] && msg[1] == head[1] && msg[2] == flag
            && msg[4] == head[4] && msg[5] == head[5] && msg[12..] == body + tail
  {
  }

  lemma QueryLayout(name: bytes, qtype: nat, id: nat, tail: bytes)
    requires qtype <= 0xffff && id <= 0xffff
    ensures |Query(name, qtype, id)| >= 12
    ensures var msg := Query(name, qtype, id)[2 := 0x81] + tail;
            HeaderMatches(msg, id)
            && msg[12..] == Written(Labels(name)) + ([0] + ([qtype / 256, qtype % 256, 0, 1] + tail))
  {
    var head: bytes := [id / 256, id % 256, 1, 0, 0, 1, 0, 0, 0, 0, 0, 0];
    var w, end: bytes := Written(Labels(name)), [0, qtype / 256, qtype % 256, 0, 1];
    BehindHeader(head, w + end, tail, 0x81);
    Assoc(head, w, end);
    Assoc(w, end, tail);
    assert end + tail == [0] + ([qtype / 256, qtype % 256, 0, 1] + tail);
  }

  lemma ShortLabelsMatch(msg: bytes, name: bytes, qtype: nat, id: nat, question: bytes)
    requires HeaderMatches(msg, id) && msg[12..] == Written(Labels(name)) + ([0] + question)
    requires |question| >= 4 && U16(question[0], question[1]) == qtype
    requires forall l :: l in Labels(name) ==> |l| < 256
    ensures Matches(msg, id, name, qtype)
  {
    MatchesTheName(msg, id, name, qtype);
    HeaderSpelled(msg, id);
    LabelsAreNotEmpty(name);
    WrittenReadsBack(Labels(name), [0] + question);
    SameLabelsReflexive(Labels(name));
    QuestionBehindName(msg, Written(Labels(name)), question);
    AnswersWhen(msg, id, Labels(name), |Written(Labels(name))| + 1, qtype);
  }

  lemma AnswersWhen(msg: bytes, id: nat, ls: seq<bytes>, n: nat, qtype: nat)
    requires |msg| >= 12 && msg[0] as int * 256 + msg[1] as int == id && msg[2] >= 0x80 && msg[4] == 0 && msg[5] == 1
    requires ReadName(msg[12..]) == Some((ls, n)) && SameLabels(ls, ls)
    requires 12 + n + 4 <= |msg| && msg[12 + n] as int * 256 + msg[12 + n + 1] as int == qtype
    ensures Answers(msg, id, ls, qtype)
  {
  }

  lemma MatchesHaveShortLabels(msg: bytes, id: nat, name: bytes, qtype: nat)
    requires Matches(msg, id, name, qtype)
    ensures forall l :: l in Labels(name) ==> |l| < 256
  {
    MatchesTheName(msg, id, name, qtype);
    ReadLabelsAreShort(msg[12..]);
    SameLabelsAreAsLong(ReadName(msg[12..]).value.0, Labels(name));
  }

  /** A query its own matcher refuses: one label of 256 bytes. */
  lemma AQueryThatIsRefused(qtype: nat, id: nat, tail: bytes) returns (name: bytes)
    requires qtype <= 0xffff && id <= 0xffff
    ensures |Query(name, qtype, id)| >= 12 && 46 !in name && |name| == 256
    ensures !Matches(Query(name, qtype, id)[2 := 0x81] + tail, id, name, qtype)
  {
    name := seq(256, i => 97);
    OneMoreLabel(name, [], [0]);
    assert name + Dots(0) == name && name in [name];
    QueryAnswersItself(name, [name], [0, 0], qtype, id, tail);
  }

  lemma QuestionBehindName(msg: bytes, w: bytes, question: bytes)
    requires |msg| >= 12 && msg[12..] == w + ([0] + question) && |question| >= 2
    ensures var n := 12 + |w| + 1;
            |msg| == n + |question| && msg[n] == question[0] && msg[n + 1] == question[1]
  {
    var b := w + ([0] + question);
    assert b[|w| + 1] == question[0] && b[|w| + 2] == question[1];
    assert msg[12 + |w| + 1] == msg[12..][|w| + 1] && msg[12 + |w| + 2] == msg[12..][|w| + 2];
  }

  lemma SameLabelsAreAsLong(a: seq<bytes>, b: seq<bytes>)
    requires SameLabels(a, b) && forall i :: 0 <= i < |a| ==> |a[i]| < 256
    ensures forall l :: l in b ==> |l| < 256
  {
    forall l | l in b ensures |l| < 256 {
      var i :| 0 <= i < |b| && b[i] == l;
      assert SameText(a[i], b[i]);
    }
  }

  /** No label read from the wire is longer than its length byte can say. */
  lemma {:induction false} ReadLabelsAreShort(b: bytes)
    requires ReadName(b).Some?
    ensures forall i :: 0 <= i < |ReadName(b).value.0| ==> |ReadName(b).value.0[i]| < 256
    decreases |b|
  {
    if b[0] != 0 {
      ReadLabelsAreShort(b[1 + b[0] as int..]);
    }
  }
}
