/**
ClientHello messages as they are written (section 4.1.2 of RFC 8446, section 3
of RFC 6066), and what the two readers make of every one of them.
*/
module ClientHello {
  import opened Common
  import opened Sniff
  import opened Fragment

  /** What a one-byte length can count, and what a two-byte length can. */
  type Short = b: bytes | |b| < 256 witness []
  type Long = b: bytes | |b| <= 0xffff witness []

  /** The version and the random bytes. */
  type Head = b: bytes | |b| == 34 ghost witness seq(34, i => 0)

  /** Any extension but server_name. */
  datatype Extension = Extension(kind: nat, data: Long)

  type GoodExtension = x: Extension | 0 < x.kind <= 0xffff witness Extension(1, [])

  /** An entry of the server_name list; type 0 is a host_name. */
  datatype Entry = Entry(kind: byte, name: Long)

  function EntryBytes(x: Entry): bytes { [x.kind] + Word(|x.name|) + x.name }

  function EntriesBytes(xs: seq<Entry>): bytes {
    if xs == [] then [] else EntryBytes(xs[0]) + EntriesBytes(xs[1..])
  }

  /** Entries that fit one extension. */
  type Names = xs: seq<Entry> | |EntriesBytes(xs)| <= 0xfffd witness []

  function ListBytes(xs: Names): Long { Word(|EntriesBytes(xs)|) + EntriesBytes(xs) }

  function ExtensionBytes(kind: nat, data: Long): (b: bytes)
    requires kind <= 0xffff
    ensures |b| == 4 + |data|
  {
    Word(kind) + Word(|data|) + data
  }

  function ExtensionsBytes(xs: seq<GoodExtension>): bytes {
    if xs == [] then [] else ExtensionBytes(xs[0].kind, xs[0].data) + ExtensionsBytes(xs[1..])
  }

  /** Some extensions, then server_name with the given data, then the rest. */
  function WithServerName(before: seq<GoodExtension>, data: Long, rest: bytes): bytes {
    if before == [] then ExtensionBytes(0, data) + rest
    else ExtensionBytes(before[0].kind, before[0].data) + WithServerName(before[1..], data, rest)
  }

  datatype Message = Message(
    head: Head,
    session: Short,
    suites: Long,
    compression: Short,
    before: seq<GoodExtension>,
    names: Names,
    after: seq<GoodExtension>)

  function AllExtensions(m: Message): bytes {
    WithServerName(m.before, ListBytes(m.names), ExtensionsBytes(m.after))
  }

  function BodyBytes(head: Head, session: Short, suites: Long, compression: Short, exts: Long): bytes {
    (((head + ([|session|] + session)) + (Word(|suites|) + suites)) + ([|compression|] + compression))
    + (Word(|exts|) + exts)
  }

  /** Where the extensions start in the body. */
  function ExtensionsStart(m: Message): nat { 40 + |m.session| + |m.suites| + |m.compression| }

  /** Where the server_name data starts in the body. */
  function DataStart(m: Message): nat { ExtensionsStart(m) + |ExtensionsBytes(m.before)| + 4 }

  /** A message that fits one record. */
  ghost predicate Writable(m: Message) {
    ExtensionsStart(m) + |AllExtensions(m)| <= 0xffff - 4
  }

  type GoodMessage = m: Message | Writable(m)
    ghost witness Message(seq(34, i => 0), [], [], [], [], [], [])

  function Body(m: GoodMessage): (b: bytes)
    ensures |b| == ExtensionsStart(m) + |AllExtensions(m)|
  {
    BodyBytes(m.head, m.session, m.suites, m.compression, AllExtensions(m))
  }

  /** The record header, the handshake header, the body. */
  function RecordBytes(m: GoodMessage, major: byte, minor: byte): bytes {
    var n := |Body(m)|;
    ([0x16, major, minor] + Word(n + 4) + [1, 0] + Word(n)) + Body(m)
  }

  /** The first host_name entry of a list. */
  function FirstHost(xs: seq<Entry>): Option<bytes> {
    if xs == [] then None else if xs[0].kind == 0 then Some(xs[0].name) else FirstHost(xs[1..])
  }

  // ----- Reading it back -----

  lemma HeadersAreSkipped(headers: bytes, body: bytes, tail: bytes)
    requires |headers| == 9 && headers[0] == 0x16 && headers[5] == 1 && headers[6] == 0
    requires U16(headers[3], headers[4]) == |body| + 4 && U16(headers[7], headers[8]) == |body|
    ensures Sniff.Hello(headers + body + tail) == Some(body)
  {
    var b := headers + body + tail;
    assert forall i :: 0 <= i < 9 ==> b[i] == headers[i];
    var inner := b[5..9 + |body|];
    assert forall i :: 0 <= i < 4 ==> inner[i] == headers[5 + i];
    assert inner[4..] == body;
    assert inner[4..4 + |body|] == inner[4..];
  }

  lemma BodyIsFound(m: GoodMessage, major: byte, minor: byte, tail: bytes)
    ensures Sniff.Hello(RecordBytes(m, major, minor) + tail) == Some(Body(m))
  {
    var n := |Body(m)|;
    HeadersAreSkipped([0x16, major, minor] + Word(n + 4) + [1, 0] + Word(n), Body(m), tail);
  }

  /** The bytes that count four fields in a row, and where the last of the fields stands. */
  lemma FieldsStand(head: bytes, f: bytes, g: bytes, h: bytes, k: bytes)
    requires |f| >= 1 && |g| >= 2 && |h| >= 1 && |k| >= 2
    ensures var x, p, q, r := (((head + f) + g) + h) + k, |head| + |f|, |head| + |f| + |g|, |head| + |f| + |g| + |h|;
            && x[|head|] == f[0] && x[p] == g[0] && x[p + 1] == g[1] && x[q] == h[0] && x[r] == k[0] && x[r + 1] == k[1]
            && x[r..] == k
  {
  }

  lemma CountedIsRead(x: bytes, at: nat, data: bytes)
    requires |data| <= 0xffff && At(x, at, Word(|data|) + data)
    ensures U16(x[at], x[at + 1]) == |data| && At(x, at + 2, data)
  {
    AtSplit(x, at, Word(|data|), data);
    AtWord(x, at, |data|);
  }

  /** The body `x` ends with these extensions, which start at `at`. */
  ghost predicate EndsWith(x: bytes, at: nat, exts: bytes) {
    Extensions(x) == Some((at, |x|)) && at + |exts| == |x| && At(x, at, exts)
  }

  /** Four fields in a row, each counted by its first one or two bytes, lead to the extensions. */
  lemma FieldsLead(head: Head, f: bytes, g: bytes, h: bytes, k: bytes)
    requires f != [] && |f| == 1 + f[0] as int && |g| >= 2 && |g| == 2 + U16(g[0], g[1])
    requires h != [] && |h| == 1 + h[0] as int && |k| >= 2
    ensures var at := 36 + |f| + |g| + |h|; Extensions((((head + f) + g) + h) + k) == Some((at, at + U16(k[0], k[1])))
  {
    FieldsStand(head, f, g, h, k);
    HelloLengths((((head + f) + g) + h) + k, 34 + |f|, 34 + |f| + |g|, 34 + |f| + |g| + |h|);
  }

  lemma CountLeads(data: Long)
    ensures var k := Word(|data|) + data; |k| == 2 + |data| && U16(k[0], k[1]) == |data| && k[2..] == data
  {
  }

  lemma BackStands(front: bytes, back: bytes)
    ensures At(front + back, |front|, back)
  {
    AtWhole(front + back);
    AtSplit(front + back, 0, front, back);
  }

  lemma LastStands(x: bytes, front: bytes, back: bytes, data: Long)
    requires x == front + back && back == Word(|data|) + data
    ensures At(x, |front| + 2, data)
  {
    BackStands(front, back);
    CountedIsRead(x, |front|, data);
  }

  lemma ExtensionsAreFound(head: Head, session: Short, suites: Long, compression: Short, exts: Long)
    ensures EndsWith(BodyBytes(head, session, suites, compression, exts),
                     40 + |session| + |suites| + |compression|, exts)
  {
    var f, g := [|session|] + session, Word(|suites|) + suites;
    var h, k := [|compression|] + compression, Word(|exts|) + exts;
    CountLeads(suites);
    CountLeads(exts);
    FieldsLead(head, f, g, h, k);
    LastStands((((head + f) + g) + h) + k, ((head + f) + g) + h, k, exts);
  }

  /** One extension at the front of a stretch, and the search from there. */
  lemma ExtensionStep(x: bytes, at: nat, kind: nat, data: Long, more: bytes)
    requires kind <= 0xffff && At(x, at, ExtensionBytes(kind, data) + more)
    ensures var next, end := at + 4 + |data|, at + |ExtensionBytes(kind, data) + more|;
            && end == next + |more| && At(x, at + 4, data) && At(x, next, more)
            && FindServerName(x, at, end) == if kind == 0 then Some((at + 4, next)) else FindServerName(x, next, end)
  {
    AtSplit(x, at, ExtensionBytes(kind, data), more);
    HeaderIsRead(x, at, kind, data);
    FindStep(x, at, at + 4 + |data| + |more|, kind, |data|);
  }

  lemma HeaderIsRead(x: bytes, at: nat, kind: nat, data: Long)
    requires kind <= 0xffff && At(x, at, ExtensionBytes(kind, data))
    ensures at + 4 + |data| <= |x| && U16(x[at], x[at + 1]) == kind && U16(x[at + 2], x[at + 3]) == |data|
    ensures At(x, at + 4, data)
  {
    AtSplit(x, at, Word(kind) + Word(|data|), data);
    AtSplit(x, at, Word(kind), Word(|data|));
    AtWord(x, at, kind);
    AtWord(x, at + 2, |data|);
  }

  lemma FindStep(x: bytes, at: nat, end: nat, kind: nat, len: nat)
    requires at + 4 + len <= end <= |x| && U16(x[at], x[at + 1]) == kind && U16(x[at + 2], x[at + 3]) == len
    ensures FindServerName(x, at, end) ==
            if kind == 0 then Some((at + 4, at + 4 + len)) else FindServerName(x, at + 4 + len, end)
  {
  }

  /** The search from `at` to `end` finds server_name with this data at `p`. */
  ghost predicate Finds(x: bytes, at: nat, end: nat, p: nat, data: bytes) {
    end <= |x| && FindServerName(x, at, end) == Some((p, p + |data|)) && At(x, p, data)
  }

  lemma FindsHere(x: bytes, at: nat, data: Long, rest: bytes)
    requires At(x, at, ExtensionBytes(0, data) + rest)
    ensures Finds(x, at, at + 4 + |data| + |rest|, at + 4, data)
  {
    ExtensionStep(x, at, 0, data, rest);
  }

  lemma FindsLater(x: bytes, at: nat, e: GoodExtension, more: bytes, p: nat, data: bytes)
    requires At(x, at, ExtensionBytes(e.kind, e.data) + more)
    requires Finds(x, at + 4 + |e.data|, at + 4 + |e.data| + |more|, p, data)
    ensures Finds(x, at, at + 4 + |e.data| + |more|, p, data)
  {
    ExtensionStep(x, at, e.kind, e.data, more);
  }

  lemma FirstTakesRoom(before: seq<GoodExtension>, data: Long, rest: bytes)
    requires before != []
    ensures |ExtensionsBytes(before)| == 4 + |before[0].data| + |ExtensionsBytes(before[1..])|
    ensures |WithServerName(before, data, rest)| == 4 + |before[0].data| + |WithServerName(before[1..], data, rest)|
  {
  }

  /** `before` and what follows stand from `at` to `end`, with the server_name data at `p`. */
  ghost predicate Stands(x: bytes, at: nat, end: nat, before: seq<GoodExtension>, data: Long, rest: bytes, p: nat) {
    && At(x, at, WithServerName(before, data, rest))
    && end == at + |WithServerName(before, data, rest)| && p == at + |ExtensionsBytes(before)| + 4
  }

  /** The extensions behind the first one. */
  lemma Peel(x: bytes, at: nat, end: nat, before: seq<GoodExtension>, data: Long, rest: bytes, p: nat)
    requires before != [] && Stands(x, at, end, before, data, rest, p)
    ensures Stands(x, at + 4 + |before[0].data|, end, before[1..], data, rest, p)
  {
    FirstTakesRoom(before, data, rest);
    AtSplit(x, at, ExtensionBytes(before[0].kind, before[0].data), WithServerName(before[1..], data, rest));
  }

  lemma Unpeel(x: bytes, at: nat, end: nat, before: seq<GoodExtension>, data: Long, rest: bytes, p: nat)
    requires before != [] && Stands(x, at, end, before, data, rest, p)
    requires Finds(x, at + 4 + |before[0].data|, end, p, data)
    ensures Finds(x, at, end, p, data)
  {
    FirstTakesRoom(before, data, rest);
    FindsLater(x, at, before[0], WithServerName(before[1..], data, rest), p, data);
  }

  lemma Bottom(x: bytes, at: nat, end: nat, data: Long, rest: bytes, p: nat)
    requires Stands(x, at, end, [], data, rest, p)
    ensures Finds(x, at, end, p, data)
  {
    FindsHere(x, at, data, rest);
  }

  lemma {:induction false} ServerNameIsFound(x: bytes, at: nat, end: nat, before: seq<GoodExtension>, data: Long,
                                             rest: bytes, p: nat)
    requires Stands(x, at, end, before, data, rest, p)
    ensures Finds(x, at, end, p, data)
    decreases |before|
  {
    if before == [] {
      Bottom(x, at, end, data, rest, p);
    } else {
      Peel(x, at, end, before, data, rest, p);
      ServerNameIsFound(x, at + 4 + |before[0].data|, end, before[1..], data, rest, p);
      Unpeel(x, at, end, before, data, rest, p);
    }
  }

  lemma EntryIsRead(d: bytes, at: nat, x: Entry)
    requires At(d, at, EntryBytes(x))
    ensures d[at] == x.kind && U16(d[at + 1], d[at + 2]) == |x.name| && At(d, at + 3, x.name)
  {
    AtSplit(d, at, [x.kind] + Word(|x.name|), x.name);
    AtSplit(d, at, [x.kind], Word(|x.name|));
    AtByte(d, at, [x.kind], 0);
    AtWord(d, at + 1, |x.name|);
  }

  /** One entry at the front of a list, and the search from there. */
  lemma EntryStep(d: bytes, at: nat, x: Entry, more: bytes)
    requires At(d, at, EntryBytes(x) + more)
    ensures var next, end := at + 3 + |x.name|, at + |EntryBytes(x) + more|;
            && end == next + |more| && At(d, next, more)
            && FirstHostName(d, at, end) == if x.kind == 0 then Some(x.name) else FirstHostName(d, next, end)
  {
    AtSplit(d, at, EntryBytes(x), more);
    EntryIsRead(d, at, x);
    AtSlice(d, at + 3, x.name);
  }

  lemma {:induction false} EntriesAreRead(d: bytes, at: nat, xs: seq<Entry>)
    requires At(d, at, EntriesBytes(xs))
    ensures FirstHostName(d, at, at + |EntriesBytes(xs)|) == FirstHost(xs)
    decreases |xs|
  {
    if xs != [] {
      EntryStep(d, at, xs[0], EntriesBytes(xs[1..]));
      EntriesAreRead(d, at + 3 + |xs[0].name|, xs[1..]);
    }
  }

  lemma ListStep(d: bytes, n: nat)
    requires |d| == 2 + n && U16(d[0], d[1]) == n
    ensures FirstListed(d) == FirstHostName(d, 2, 2 + n)
  {
  }

  lemma ListIsRead(xs: Names)
    ensures FirstListed(ListBytes(xs)) == FirstHost(xs)
  {
    CountedList(ListBytes(xs), xs);
  }

  lemma CountedList(d: bytes, xs: seq<Entry>)
    requires |EntriesBytes(xs)| <= 0xffff && d == Word(|EntriesBytes(xs)|) + EntriesBytes(xs)
    ensures FirstListed(d) == FirstHost(xs)
  {
    AtWhole(d);
    CountedIsRead(d, 0, EntriesBytes(xs));
    ListStep(d, |EntriesBytes(xs)|);
    EntriesAreRead(d, 2, xs);
  }

  /** The body `x` has a server_name extension with this data at `p`. */
  ghost predicate HasServerName(x: bytes, p: nat, data: bytes) {
    ServerNameExt(x) == Some((p, p + |data|)) && At(x, p, data)
  }

  /** The record `b` holds a ClientHello whose body `x` has a server_name extension at `p` with these entries. */
  ghost predicate Carries(b: bytes, x: bytes, p: nat, names: Names) {
    && Sniff.Hello(b) == Some(x)
    && HasServerName(x, p, ListBytes(names))
  }

  lemma FoundInside(x: bytes, at: nat, before: seq<GoodExtension>, data: Long, rest: bytes)
    requires EndsWith(x, at, WithServerName(before, data, rest))
    ensures HasServerName(x, at + |ExtensionsBytes(before)| + 4, data)
  {
    ServerNameIsFound(x, at, |x|, before, data, rest, at + |ExtensionsBytes(before)| + 4);
  }

  lemma DataIsFound(m: GoodMessage)
    ensures HasServerName(Body(m), DataStart(m), ListBytes(m.names))
  {
    FoundInBody(m.head, m.session, m.suites, m.compression, m.before, ListBytes(m.names), ExtensionsBytes(m.after));
  }

  lemma FoundInBody(head: Head, session: Short, suites: Long, compression: Short,
                    before: seq<GoodExtension>, data: Long, rest: bytes)
    requires |WithServerName(before, data, rest)| <= 0xffff
    ensures HasServerName(BodyBytes(head, session, suites, compression, WithServerName(before, data, rest)),
                          40 + |session| + |suites| + |compression| + |ExtensionsBytes(before)| + 4, data)
  {
    var exts := WithServerName(before, data, rest);
    ExtensionsAreFound(head, session, suites, compression, exts);
    FoundInside(BodyBytes(head, session, suites, compression, exts), 40 + |session| + |suites| + |compression|,
                before, data, rest);
  }

  lemma MessageCarriesItsNames(m: GoodMessage, major: byte, minor: byte, tail: bytes)
    ensures Carries(RecordBytes(m, major, minor) + tail, Body(m), DataStart(m), m.names)
  {
    BodyIsFound(m, major, minor, tail);
    DataIsFound(m);
  }

  lemma RouterReads(b: bytes, x: bytes, p: nat, names: Names)
    requires Carries(b, x, p, names)
    ensures ServerName(b) == Normalised(FirstHost(names))
  {
    AtSlice(x, p, ListBytes(names));
    ListIsRead(names);
  }

  /** The entry's name stands at `s`, and is the range the splitter finds if it is a host_name and not empty. */
  ghost predicate RangeIs(b: bytes, s: nat, x: Entry) {
    && At(b, s, x.name)
    && SniHostRange(b) == if x.kind == 0 && x.name != [] then Some((s, s + |x.name|)) else None
  }

  lemma SplitterLooksAtFirst(b: bytes, x: bytes, p: nat, names: Names)
    requires Carries(b, x, p, names) && names != []
    ensures SniHostRange(b) == HostAt(b, p + 9) && At(b, p + 11, EntryBytes(names[0]))
  {
    ListStart(b, x, p);
    FirstEntryIsInside(b, x, p, names);
  }

  lemma ListStart(b: bytes, x: bytes, p: nat)
    requires Sniff.Hello(b) == Some(x) && ServerNameExt(x).Some? && ServerNameExt(x).value.0 == p
    ensures Inside(b, x) && SniHostRange(b) == HostAt(b, p + 9)
  {
    RangeIsAtTheList(b, x);
  }

  lemma SplitterFinds(b: bytes, x: bytes, p: nat, names: Names)
    requires Carries(b, x, p, names) && names != []
    ensures RangeIs(b, p + 14, names[0])
  {
    SplitterLooksAtFirst(b, x, p, names);
    FirstDecides(b, p, names[0]);
  }

  lemma FirstDecides(b: bytes, p: nat, x: Entry)
    requires SniHostRange(b) == HostAt(b, p + 9) && At(b, p + 11, EntryBytes(x))
    ensures RangeIs(b, p + 14, x)
  {
    HostIsRead(b, p + 9, x);
  }

  lemma HostIsRead(b: bytes, body: nat, x: Entry)
    requires At(b, body + 2, EntryBytes(x))
    ensures At(b, body + 5, x.name)
    ensures HostAt(b, body) == if x.kind == 0 && x.name != [] then Some((body + 5, body + 5 + |x.name|)) else None
  {
    EntryIsRead(b, body + 2, x);
    HostStep(b, body, x.kind, x.name);
  }

  lemma HostStep(b: bytes, body: nat, kind: byte, name: bytes)
    requires body + 5 <= |b| && b[body + 2] == kind
    requires U16(b[body + 3], b[body + 4]) == |name| && At(b, body + 5, name)
    ensures HostAt(b, body) == if kind == 0 && name != [] then Some((body + 5, body + 5 + |name|)) else None
  {
  }

  lemma FirstEntryIsInside(b: bytes, x: bytes, p: nat, names: Names)
    requires Inside(b, x) && names != [] && At(x, p, ListBytes(names))
    ensures At(b, p + 11, EntryBytes(names[0]))
  {
    CountedIsRead(x, p, EntriesBytes(names));
    AtSplit(x, p + 2, EntryBytes(names[0]), EntriesBytes(names[1..]));
    AtInside(b, x, p + 2, EntryBytes(names[0]));
  }

  lemma AtInside(b: bytes, x: bytes, p: nat, y: bytes)
    requires Inside(b, x) && At(x, p, y)
    ensures At(b, p + 9, y)
  {
    AtSlice(x, p, y);
    SliceOfSlice(b, x, p, p + |y|);
    AtSlice(b, p + 9, y);
  }

  /** The router reads from every ClientHello the name its first host_name entry stands for. */
  lemma RouterReadsTheName(m: GoodMessage, major: byte, minor: byte, tail: bytes)
    ensures ServerName(RecordBytes(m, major, minor) + tail) == Normalised(FirstHost(m.names))
  {
    MessageCarriesItsNames(m, major, minor, tail);
    RouterReads(RecordBytes(m, major, minor) + tail, Body(m), DataStart(m), m.names);
  }

  /**
  The splitter finds, in every ClientHello with a server_name list, exactly the
  bytes of the first entry when that is a host_name with a name in it, and
  nothing otherwise.
  */
  lemma SplitterFindsTheName(m: GoodMessage, major: byte, minor: byte, tail: bytes)
    requires m.names != []
    ensures RangeIs(RecordBytes(m, major, minor) + tail, DataStart(m) + 14, m.names[0])
  {
    MessageCarriesItsNames(m, major, minor, tail);
    SplitterFinds(RecordBytes(m, major, minor) + tail, Body(m), DataStart(m), m.names);
  }

  /** The router reads the normal form of `name`, and the splitter finds its bytes at `s`. */
  ghost predicate FoundAt(b: bytes, s: nat, name: bytes) {
    ServerName(b) == PlausibleHost(name) && SniHostRange(b) == Some((s, s + |name|)) && At(b, s, name)
  }

  lemma BothFind(b: bytes, x: bytes, p: nat, names: Names)
    requires Carries(b, x, p, names) && names != [] && names[0].kind == 0 && PlausibleHost(names[0].name).Some?
    ensures FoundAt(b, p + 14, names[0].name)
  {
    RouterReads(b, x, p, names);
    SplitterFinds(b, x, p, names);
    RawNameIsLongEnough(names[0].name);
  }

  /** Both readers find a plausible name that is written first: the router its normal form, the splitter its bytes. */
  lemma BothReadersFindTheName(m: GoodMessage, major: byte, minor: byte, tail: bytes)
    requires m.names != [] && m.names[0].kind == 0 && PlausibleHost(m.names[0].name).Some?
    ensures FoundAt(RecordBytes(m, major, minor) + tail, DataStart(m) + 14, m.names[0].name)
  {
    MessageCarriesItsNames(m, major, minor, tail);
    BothFind(RecordBytes(m, major, minor) + tail, Body(m), DataStart(m), m.names);
  }

  // ----- Where they differ -----

  /** A message with nothing in it but the given server_name list. */
  function Plain(names: Names): Message {
    Message(seq(34, i => 0), [], [], [], [], names, [])
  }

  const A_DOT_B: bytes := [97, 46, 98]

  lemma ShortNameIsAName()
    ensures HostName(A_DOT_B)
  {
    assert A_DOT_B[0] == 97;
    assert OctetLen(A_DOT_B) == 0;
  }

  /** A ClientHello for that name. */
  lemma HelloForShortName() returns (b: bytes)
    ensures ServerName(b) == Some(A_DOT_B) && SniHostRange(b).Some? && SniHostRange(b).value.0 > 0
  {
    var names := [Entry(0, A_DOT_B)];
    assert EntryBytes(names[0]) == [0, 0, 3] + A_DOT_B && names[1..] == [];
    assert |EntriesBytes(names)| == 6;
    var m := Plain(names);
    assert Writable(m);
    ShortNameIsAName();
    HostNamesAreFixed(A_DOT_B);
    BothReadersFindTheName(m, 3, 1, []);
    b := RecordBytes(m, 3, 1) + [];
  }

  /** A list whose first entry is of another type: the router reads the name behind it, the splitter finds nothing. */
  lemma OnlyTheRouterSeesTheName() returns (b: bytes)
    ensures ServerName(b) == Some(A_DOT_B) && SniHostRange(b) == None
  {
    var names := [Entry(1, [7]), Entry(0, A_DOT_B)];
    assert names[1..] == [Entry(0, A_DOT_B)] && names[1..][1..] == [];
    assert EntryBytes(names[0]) == [1, 0, 1, 7] && EntryBytes(names[1]) == [0, 0, 3] + A_DOT_B;
    assert EntriesBytes(names[1..]) == EntryBytes(names[1..][0]) + EntriesBytes(names[1..][1..]);
    assert |EntriesBytes(names)| == 10;
    var m := Plain(names);
    assert Writable(m);
    b := RecordBytes(m, 3, 1) + [];
    RouterReadsTheName(m, 3, 1, []);
    SplitterFindsTheName(m, 3, 1, []);
    ShortNameIsAName();
    HostNamesAreFixed(A_DOT_B);
  }
}
