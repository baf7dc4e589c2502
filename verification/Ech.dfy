/**
Finding the ECH configuration in a DNS reply: the answers are walked until an
HTTPS record (section 2.2 of RFC 9460) carries an `ech` parameter.
*/
module Ech {
  import opened Common

  const RR_HTTPS := 65
  const SVCPARAM_ECH := 5

  /** Where `skip_name` ends; a compressed tail ends a name, is not followed, and may reach past the message. */
  function NameEnd(b: bytes, pos: nat): (r: Option<nat>)
    ensures r.Some? ==> pos < |b| && r.value > pos
    decreases |b| - pos
  {
    if pos >= |b| then None
    else if b[pos] >= 0xC0 then Some(pos + 2)
    else if b[pos] == 0 then Some(pos + 1)
    else NameEnd(b, pos + 1 + b[pos] as int)
  }

  /** The position and length of the first `ech` value among service parameters from `p` to `end`. */
  function EchParam(b: bytes, p: nat, end: nat): (r: Option<(nat, nat)>)
    requires end <= |b|
    decreases end - p
  {
    if p + 4 > end then None
    else
      var key, len := U16(b[p], b[p + 1]), U16(b[p + 2], b[p + 3]);
      if p + 4 + len > end then None
      else if key == SVCPARAM_ECH then Some((p + 4, len))
      else EchParam(b, p + 4 + len, end)
  }

  /** `parse_svcparams_ech`. */
  function SvcEch(b: bytes, start: nat, rdlen: nat): Option<(nat, nat)>
    requires start + rdlen <= |b|
  {
    if rdlen < 2 then None
    else
      var p := NameEnd(b, start + 2);
      if p.None? then None else EchParam(b, p.value, start + rdlen)
  }

  /** The record at a position: its type, where its data starts, and how long that is. */
  datatype Record = Record(rtype: nat, start: nat, rdlen: nat)

  function RecordAt(b: bytes, pos: nat): (r: Option<Record>)
    ensures r.Some? ==> pos + 11 <= r.value.start && r.value.start + r.value.rdlen <= |b|
  {
    var n := NameEnd(b, pos);
    if n.None? || n.value + 10 > |b| then None
    else
      var at := n.value;
      var rdlen := U16(b[at + 8], b[at + 9]);
      if at + 10 + rdlen > |b| then None
      else Some(Record(U16(b[at], b[at + 1]), at + 10, rdlen))
  }

  /** The answer loop over the next `count` records. */
  function AnswersEch(b: bytes, pos: nat, count: nat): Option<(nat, nat)>
    decreases count
  {
    if count == 0 || RecordAt(b, pos).None? then None
    else
      var r := RecordAt(b, pos).value;
      var ech := if r.rtype == RR_HTTPS then SvcEch(b, r.start, r.rdlen) else None;
      if ech.Some? then ech else AnswersEch(b, r.start + r.rdlen, count - 1)
  }

  /** Where the cursor stands after skipping `count` questions. */
  function SkipQuestions(b: bytes, pos: nat, count: nat): Option<nat>
    decreases count
  {
    if count == 0 then Some(pos)
    else
      var n := NameEnd(b, pos);
      if n.None? then None else SkipQuestions(b, n.value + 4, count - 1)
  }

  /** `parse_https_ech`, as the position and length of what it returns. */
  function HttpsEch(msg: bytes): Option<(nat, nat)> {
    if |msg| < 12 then None
    else
      var answers := SkipQuestions(msg, 12, U16(msg[4], msg[5]));
      if answers.None? then None else AnswersEch(msg, answers.value, U16(msg[6], msg[7]))
  }

  // ----- The cursor loops -----

  method SkipName(buf: bytes, from: nat) returns (r: Option<nat>)
    ensures r == NameEnd(buf, from)
  {
    var pos := from;
    while pos < |buf|
      invariant NameEnd(buf, pos) == NameEnd(buf, from)
    {
      var len := buf[pos];
      if len >= 0xC0 {
        return Some(pos + 2);
      }
      if len == 0 {
        return Some(pos + 1);
      }
      pos := pos + 1 + len as int;
    }
    return None;
  }

  method ParseSvcParamsEch(msg: bytes, start: nat, rdlen: nat) returns (r: Option<(nat, nat)>)
    requires start + rdlen <= |msg|
    ensures r == SvcEch(msg, start, rdlen)
  {
    var end := start + rdlen;
    if start + 2 > end {
      return None;
    }
    var n := SkipName(msg, start + 2);
    if n.None? {
      return None;
    }
    var p := n.value;
    while p + 4 <= end
      invariant EchParam(msg, p, end) == EchParam(msg, n.value, end)
    {
      var key, len := U16(msg[p], msg[p + 1]), U16(msg[p + 2], msg[p + 3]);
      p := p + 4;
      if p + len > end {
        return None;
      }
      if key == SVCPARAM_ECH {
        return Some((p, len));
      }
      p := p + len;
    }
    return None;
  }

  method SkipAllQuestions(msg: bytes, qd: nat) returns (r: Option<nat>)
    ensures r == SkipQuestions(msg, 12, qd)
  {
    var pos: nat := 12;
    for i := 0 to qd
      invariant SkipQuestions(msg, pos, qd - i) == SkipQuestions(msg, 12, qd)
    {
      var n := SkipName(msg, pos);
      if n.None? {
        return None;
      }
      pos := n.value + 4;
    }
    return Some(pos);
  }

  method WalkAnswers(msg: bytes, from: nat, an: nat) returns (r: Option<(nat, nat)>)
    ensures r == AnswersEch(msg, from, an)
  {
    var pos: nat := from;
    for i := 0 to an
      invariant AnswersEch(msg, pos, an - i) == AnswersEch(msg, from, an)
    {
      var n := SkipName(msg, pos);
      if n.None? || n.value + 10 > |msg| {
        return None;
      }
      pos := n.value;
      var rtype, rdlen := U16(msg[pos], msg[pos + 1]), U16(msg[pos + 8], msg[pos + 9]);
      pos := pos + 10;
      if pos + rdlen > |msg| {
        return None;
      }
      if rtype == RR_HTTPS {
        var ech := ParseSvcParamsEch(msg, pos, rdlen);
        if ech.Some? {
          return ech;
        }
      }
      pos := pos + rdlen;
    }
    return None;
  }

  method ParseHttpsEch(msg: bytes) returns (r: Option<bytes>)
    ensures HttpsEch(msg).None? ==> r == None
    ensures HttpsEch(msg).Some? ==>
              var (p, len) := HttpsEch(msg).value; p + len <= |msg| && r == Some(msg[p..p + len])
  {
    if |msg| < 12 {
      return None;
    }
    var pos := SkipAllQuestions(msg, U16(msg[4], msg[5]));
    if pos.None? {
      return None;
    }
    var ech := WalkAnswers(msg, pos.value, U16(msg[6], msg[7]));
    if ech.None? {
      return None;
    }
    ghost var rd, rdlen := FoundInsideOneRecord(msg);
    return Some(msg[ech.value.0..ech.value.0 + ech.value.1]);
  }

  // ----- Whatever is found lies inside one HTTPS record -----

  lemma {:induction false} ParamIsInside(b: bytes, p: nat, end: nat)
    requires end <= |b| && EchParam(b, p, end).Some?
    ensures var (q, len) := EchParam(b, p, end).value;
            p + 4 <= q && q + len <= end &&
            U16(b[q - 4], b[q - 3]) == SVCPARAM_ECH && U16(b[q - 2], b[q - 1]) == len
    decreases end - p
  {
    var key, len := U16(b[p], b[p + 1]), U16(b[p + 2], b[p + 3]);
    if key != SVCPARAM_ECH {
      ParamIsInside(b, p + 4 + len, end);
    }
  }

  lemma SvcIsInside(b: bytes, start: nat, rdlen: nat) returns (q: nat)
    requires start + rdlen <= |b| && SvcEch(b, start, rdlen).Some?
    ensures q == SvcEch(b, start, rdlen).value.0
    ensures var len := SvcEch(b, start, rdlen).value.1;
            start + 7 <= q && q + len <= start + rdlen &&
            U16(b[q - 4], b[q - 3]) == SVCPARAM_ECH && U16(b[q - 2], b[q - 1]) == len
  {
    ParamIsInside(b, NameEnd(b, start + 2).value, start + rdlen);
    q := SvcEch(b, start, rdlen).value.0;
  }

  /** The `len` bytes at `q` are the value of an `ech` parameter in the data of an HTTPS record of the message. */
  ghost predicate InRecord(msg: bytes, rd: nat, rdlen: nat, q: nat, len: nat) {
    && 23 <= rd && rd + rdlen <= |msg|
    && U16(msg[rd - 10], msg[rd - 9]) == RR_HTTPS && U16(msg[rd - 2], msg[rd - 1]) == rdlen
    && rd + 7 <= q && q + len <= rd + rdlen
    && U16(msg[q - 4], msg[q - 3]) == SVCPARAM_ECH && U16(msg[q - 2], msg[q - 1]) == len
  }

  /** Where the walk over the answers reaches the `k`-th record. */
  function AnswerAt(b: bytes, pos: nat, k: nat): Option<nat>
    decreases k
  {
    if k == 0 then Some(pos)
    else if RecordAt(b, pos).None? then None
    else AnswerAt(b, RecordAt(b, pos).value.start + RecordAt(b, pos).value.rdlen, k - 1)
  }

  /** The walk reaches record `k` of the answers at `pos`, and it is this one. */
  ghost predicate Reaches(b: bytes, pos: nat, k: nat, r: Record) {
    AnswerAt(b, pos, k).Some? && RecordAt(b, AnswerAt(b, pos, k).value) == Some(r)
  }

  ghost predicate HasEch(b: bytes, r: Record) {
    r.rtype == RR_HTTPS && r.start + r.rdlen <= |b| && SvcEch(b, r.start, r.rdlen).Some?
  }

  lemma {:induction false} AnswerIsInside(b: bytes, pos: nat, count: nat) returns (k: nat, r: Record)
    requires pos >= 12 && AnswersEch(b, pos, count).Some?
    ensures k < count && Reaches(b, pos, k, r)
    ensures forall i, x :: 0 <= i < k && Reaches(b, pos, i, x) ==> !HasEch(b, x)
    ensures var (q, len) := AnswersEch(b, pos, count).value; InRecord(b, r.start, r.rdlen, q, len)
    decreases count
  {
    var first := RecordAt(b, pos).value;
    var next := first.start + first.rdlen;
    if HasEch(b, first) {
      k, r := 0, first;
      var q := SvcIsInside(b, first.start, first.rdlen);
    } else {
      k, r := AnswerIsInside(b, next, count - 1);
      forall i, x | 0 <= i < k + 1 && Reaches(b, pos, i, x) ensures !HasEch(b, x) {
        if i > 0 {
          assert Reaches(b, next, i - 1, x);
        }
      }
      k := k + 1;
    }
  }

  lemma {:induction false} QuestionsMoveForward(b: bytes, pos: nat, count: nat)
    requires SkipQuestions(b, pos, count).Some?
    ensures SkipQuestions(b, pos, count).value >= pos
    decreases count
  {
    if count > 0 {
      QuestionsMoveForward(b, NameEnd(b, pos).value + 4, count - 1);
    }
  }

  /**
  On every input, what is found lies wholly inside the data of one HTTPS record
  that the walk over the answers reaches, and it is the first of them that holds
  an `ech` parameter.
  */
  lemma FoundInsideOneRecord(msg: bytes) returns (k: nat, r: Record)
    requires HttpsEch(msg).Some?
    ensures |msg| >= 12 && k < U16(msg[6], msg[7])
    ensures var answers := SkipQuestions(msg, 12, U16(msg[4], msg[5]));
            && answers.Some? && Reaches(msg, answers.value, k, r)
            && (forall i, x :: 0 <= i < k && Reaches(msg, answers.value, i, x) ==> !HasEch(msg, x))
    ensures var (q, len) := HttpsEch(msg).value; InRecord(msg, r.start, r.rdlen, q, len)
  {
    QuestionsMoveForward(msg, 12, U16(msg[4], msg[5]));
    k, r := AnswerIsInside(msg, SkipQuestions(msg, 12, U16(msg[4], msg[5])).value, U16(msg[6], msg[7]));
  }

  // ----- A well-formed reply is read as written -----

  datatype Name = Root | Compressed(hi: byte, lo: byte) | Label(text: bytes, rest: Name)

  ghost predicate ValidName(n: Name) {
    match n
    case Root => true
    case Compressed(hi, _) => hi >= 0xC0
    case Label(text, rest) => 0 < |text| < 0xC0 && ValidName(rest)
  }

  type GoodName = n: Name | ValidName(n) witness Root

  function NameBytes(n: GoodName): bytes {
    match n
    case Root => [0]
    case Compressed(hi, lo) => [hi, lo]
    case Label(text, rest) => [|text| as byte] + text + NameBytes(rest)
  }

  datatype Param = Param(key: nat, value: bytes)

  type GoodParam = p: Param | p.key <= 0xffff && |p.value| <= 0xffff witness Param(0, [])

  function ParamBytes(p: GoodParam): bytes { Word(p.key) + Word(|p.value|) + p.value }

  function ParamsBytes(ps: seq<GoodParam>): bytes {
    if ps == [] then [] else ParamBytes(ps[0]) + ParamsBytes(ps[1..])
  }

  /** The value of the first `ech` parameter. */
  function FirstEch(ps: seq<GoodParam>): Option<bytes> {
    if ps == [] then None else if ps[0].key == SVCPARAM_ECH then Some(ps[0].value) else FirstEch(ps[1..])
  }

  /** The data of an HTTPS record: priority, target name, parameters. */
  datatype Service = Service(priority: bytes, target: GoodName, params: seq<GoodParam>)

  function ServiceBytes(s: Service): bytes { s.priority + NameBytes(s.target) + ParamsBytes(s.params) }

  datatype Rdata = Https(service: Service) | Other(rtype: nat, data: bytes)

  function TypeOf(d: Rdata): nat { if d.Https? then RR_HTTPS else d.rtype }

  function DataOf(d: Rdata): bytes { if d.Https? then ServiceBytes(d.service) else d.data }

  function EchOf(d: Rdata): Option<bytes> { if d.Https? then FirstEch(d.service.params) else None }

  ghost predicate ValidData(d: Rdata) {
    && |DataOf(d)| <= 0xffff
    && (if d.Https? then |d.service.priority| == 2 else d.rtype <= 0xffff && d.rtype != RR_HTTPS)
  }

  datatype Answer = Answer(owner: GoodName, classAndTtl: bytes, rdata: Rdata)

  /** An answer that can be written: its lengths and numbers fit their fields. */
  type GoodAnswer = a: Answer | |a.classAndTtl| == 6 && ValidData(a.rdata)
    witness Answer(Root, [0, 0, 0, 0, 0, 0], Other(0, []))

  /** A record as bytes: owner name, type, class and lifetime, data length, data. */
  function RecordBytes(owner: GoodName, rtype: nat, mid: bytes, data: bytes): bytes
    requires rtype <= 0xffff && |data| <= 0xffff
  {
    NameBytes(owner) + (Word(rtype) + mid + Word(|data|)) + data
  }

  function AnswerBytes(a: GoodAnswer): bytes {
    RecordBytes(a.owner, TypeOf(a.rdata), a.classAndTtl, DataOf(a.rdata))
  }

  function AnswersBytes(xs: seq<GoodAnswer>): bytes {
    if xs == [] then [] else AnswerBytes(xs[0]) + AnswersBytes(xs[1..])
  }

  /** A question: its name, and its type and class. */
  datatype Question = Question(name: GoodName, typeAndClass: bytes)

  type GoodQuestion = q: Question | |q.typeAndClass| == 4 witness Question(Root, [0, 0, 0, 0])

  function QuestionsBytes(qs: seq<GoodQuestion>): bytes {
    if qs == [] then [] else (NameBytes(qs[0].name) + qs[0].typeAndClass) + QuestionsBytes(qs[1..])
  }

  lemma {:induction false} NameIsSkipped(b: bytes, pos: nat, n: GoodName)
    requires At(b, pos, NameBytes(n))
    ensures NameEnd(b, pos) == Some(pos + |NameBytes(n)|)
    decreases n
  {
    AtByte(b, pos, NameBytes(n), 0);
    if n.Label? {
      AtSplit(b, pos, [|n.text| as byte] + n.text, NameBytes(n.rest));
      NameIsSkipped(b, pos + 1 + |n.text|, n.rest);
    }
  }

  /** `r` locates `v` in the message, or both are absent. */
  ghost predicate Locates(b: bytes, r: Option<(nat, nat)>, v: Option<bytes>) {
    if v.None? then r == None else r.Some? && r.value.1 == |v.value| && At(b, r.value.0, v.value)
  }

  lemma ParamIsRead(b: bytes, p: nat, x: GoodParam)
    requires At(b, p, ParamBytes(x))
    ensures |ParamBytes(x)| == 4 + |x.value|
    ensures U16(b[p], b[p + 1]) == x.key && U16(b[p + 2], b[p + 3]) == |x.value| && At(b, p + 4, x.value)
  {
    AtSplit(b, p, Word(x.key) + Word(|x.value|), x.value);
    AtSplit(b, p, Word(x.key), Word(|x.value|));
    AtWord(b, p, x.key);
    AtWord(b, p + 2, |x.value|);
  }

  lemma ParamsSplit(b: bytes, p: nat, ps: seq<GoodParam>)
    requires ps != [] && At(b, p, ParamsBytes(ps))
    ensures At(b, p, ParamBytes(ps[0])) && At(b, p + |ParamBytes(ps[0])|, ParamsBytes(ps[1..]))
    ensures |ParamsBytes(ps)| == |ParamBytes(ps[0])| + |ParamsBytes(ps[1..])|
  {
    AtSplit(b, p, ParamBytes(ps[0]), ParamsBytes(ps[1..]));
  }

  lemma {:induction false} ParamsAreRead(b: bytes, p: nat, ps: seq<GoodParam>, end: nat)
    requires At(b, p, ParamsBytes(ps)) && end == p + |ParamsBytes(ps)|
    ensures Locates(b, EchParam(b, p, end), FirstEch(ps))
    decreases |ps|
  {
    if ps != [] {
      ParamsSplit(b, p, ps);
      ParamIsRead(b, p, ps[0]);
      ParamsAreRead(b, p + 4 + |ps[0].value|, ps[1..], end);
    }
  }

  /** The fixed part of a record: its type, class, lifetime and data length. */
  lemma FixedIsRead(b: bytes, at: nat, rtype: nat, mid: bytes, rdlen: nat)
    requires rtype <= 0xffff && rdlen <= 0xffff && |mid| == 6
    requires At(b, at, Word(rtype) + mid + Word(rdlen))
    ensures U16(b[at], b[at + 1]) == rtype && U16(b[at + 8], b[at + 9]) == rdlen
  {
    AtSplit(b, at, Word(rtype) + mid, Word(rdlen));
    AtSplit(b, at, Word(rtype), mid);
    AtWord(b, at, rtype);
    AtWord(b, at + 8, rdlen);
  }

  lemma RecordIsRead(b: bytes, pos: nat, owner: GoodName, rtype: nat, mid: bytes, data: bytes)
    requires rtype <= 0xffff && |data| <= 0xffff && |mid| == 6
    requires At(b, pos, RecordBytes(owner, rtype, mid, data))
    ensures var start := pos + |NameBytes(owner)| + 10;
            && RecordAt(b, pos) == Some(Record(rtype, start, |data|))
            && start + |data| == pos + |RecordBytes(owner, rtype, mid, data)| && At(b, start, data)
  {
    var n := NameBytes(owner);
    var fixed := Word(rtype) + mid + Word(|data|);
    assert |fixed| == 10;
    AtSplit(b, pos, n + fixed, data);
    AtSplit(b, pos, n, fixed);
    NameIsSkipped(b, pos, owner);
    FixedIsRead(b, pos + |n|, rtype, mid, |data|);
  }

  lemma ServiceIsRead(b: bytes, start: nat, s: Service)
    requires |s.priority| == 2 && At(b, start, ServiceBytes(s))
    ensures Locates(b, SvcEch(b, start, |ServiceBytes(s)|), FirstEch(s.params))
  {
    var t, ps := NameBytes(s.target), ParamsBytes(s.params);
    AtSplit(b, start, s.priority + t, ps);
    AtSplit(b, start, s.priority, t);
    NameIsSkipped(b, start + 2, s.target);
    ParamsAreRead(b, start + 2 + |t|, s.params, start + |ServiceBytes(s)|);
  }

  /** The parser finds a record of `len` bytes at `pos`, and `v` in it. */
  ghost predicate Reads(b: bytes, pos: nat, len: nat, v: Option<bytes>) {
    RecordAt(b, pos).Some? &&
    var r := RecordAt(b, pos).value;
    r.start + r.rdlen == pos + len &&
    if r.rtype == RR_HTTPS then Locates(b, SvcEch(b, r.start, r.rdlen), v) else v == None
  }

  /** What the parser makes of one answer. */
  lemma OneAnswerIsRead(b: bytes, pos: nat, a: GoodAnswer)
    requires At(b, pos, AnswerBytes(a))
    ensures Reads(b, pos, |AnswerBytes(a)|, EchOf(a.rdata))
  {
    RecordIsRead(b, pos, a.owner, TypeOf(a.rdata), a.classAndTtl, DataOf(a.rdata));
    if a.rdata.Https? {
      ServiceIsRead(b, RecordAt(b, pos).value.start, a.rdata.service);
    }
  }

  function FirstSome(vs: seq<Option<bytes>>): Option<bytes> {
    if vs == [] then None else if vs[0].Some? then vs[0] else FirstSome(vs[1..])
  }

  /** Where the `i`-th of several adjoining pieces starts. */
  function Offset(lens: seq<nat>, pos: nat, i: nat): nat
    requires i <= |lens|
  {
    if i == 0 then pos else Offset(lens[1..], pos + lens[0], i - 1)
  }

  /** Walking adjoining records finds the first value any of them holds. */
  lemma {:induction false} WalkFindsFirst(b: bytes, pos: nat, lens: seq<nat>, vs: seq<Option<bytes>>)
    requires |lens| == |vs| && forall i :: 0 <= i < |vs| ==> Reads(b, Offset(lens, pos, i), lens[i], vs[i])
    ensures Locates(b, AnswersEch(b, pos, |vs|), FirstSome(vs))
    decreases |vs|
  {
    if vs != [] {
      assert Reads(b, Offset(lens, pos, 0), lens[0], vs[0]);
      forall i | 0 <= i < |vs| - 1 ensures Reads(b, Offset(lens[1..], pos + lens[0], i), lens[1..][i], vs[1..][i]) {
        assert Reads(b, Offset(lens, pos, i + 1), lens[i + 1], vs[i + 1]);
      }
      WalkFindsFirst(b, pos + lens[0], lens[1..], vs[1..]);
    }
  }

  function Lens(xs: seq<GoodAnswer>): seq<nat> { seq(|xs|, i requires 0 <= i < |xs| => |AnswerBytes(xs[i])|) }

  function Values(xs: seq<GoodAnswer>): seq<Option<bytes>> {
    seq(|xs|, i requires 0 <= i < |xs| => EchOf(xs[i].rdata))
  }

  /** Each answer stands where the lengths of those before it put it. */
  lemma {:induction false} AnswersStand(b: bytes, pos: nat, xs: seq<GoodAnswer>, i: nat)
    requires At(b, pos, AnswersBytes(xs)) && i < |xs|
    ensures At(b, Offset(Lens(xs), pos, i), AnswerBytes(xs[i]))
    decreases i
  {
    AtSplit(b, pos, AnswerBytes(xs[0]), AnswersBytes(xs[1..]));
    if i > 0 {
      AnswersStand(b, pos + |AnswerBytes(xs[0])|, xs[1..], i - 1);
      assert Lens(xs)[1..] == Lens(xs[1..]);
    }
  }

  lemma AnswersAreRead(b: bytes, pos: nat, xs: seq<GoodAnswer>)
    requires At(b, pos, AnswersBytes(xs))
    ensures Locates(b, AnswersEch(b, pos, |xs|), FirstSome(Values(xs)))
  {
    forall i | 0 <= i < |xs| ensures Reads(b, Offset(Lens(xs), pos, i), Lens(xs)[i], Values(xs)[i]) {
      AnswersStand(b, pos, xs, i);
      OneAnswerIsRead(b, Offset(Lens(xs), pos, i), xs[i]);
    }
    WalkFindsFirst(b, pos, Lens(xs), Values(xs));
  }

  lemma {:induction false} QuestionsAreSkipped(b: bytes, pos: nat, qs: seq<GoodQuestion>)
    requires At(b, pos, QuestionsBytes(qs))
    ensures SkipQuestions(b, pos, |qs|) == Some(pos + |QuestionsBytes(qs)|)
    decreases |qs|
  {
    if qs != [] {
      var q := qs[0];
      AtSplit(b, pos, NameBytes(q.name) + q.typeAndClass, QuestionsBytes(qs[1..]));
      AtSplit(b, pos, NameBytes(q.name), q.typeAndClass);
      NameIsSkipped(b, pos, q.name);
      QuestionsAreSkipped(b, pos + |NameBytes(q.name)| + 4, qs[1..]);
    }
  }

  /**
  For every well-formed reply, with any questions, any owner names written out or
  compressed, any other records and anything behind the answers, what is returned
  is the `ech` value of the first HTTPS record that has one.
  */
  lemma {:induction false} ReplyIsRead(msg: bytes, qs: seq<GoodQuestion>, xs: seq<GoodAnswer>)
    requires |msg| >= 12 && U16(msg[4], msg[5]) == |qs| && U16(msg[6], msg[7]) == |xs|
    requires At(msg, 12, QuestionsBytes(qs) + AnswersBytes(xs))
    ensures Locates(msg, HttpsEch(msg), FirstSome(Values(xs)))
  {
    AtSplit(msg, 12, QuestionsBytes(qs), AnswersBytes(xs));
    QuestionsAreSkipped(msg, 12, qs);
    AnswersAreRead(msg, 12 + |QuestionsBytes(qs)|, xs);
  }
}
