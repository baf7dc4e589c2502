/**
The parser that finds the server name a ClientHello is to be split in, and its
agreement with the parser the router uses.
*/
module Fragment {
  import opened Common
  import opened Sniff

  /** The byte at `at`, if it is there. */
  function Octet(b: bytes, at: nat): Option<nat> { if at < |b| then Some(b[at] as int) else None }

  /** Where the extensions start and end, counted from the start of the record. */
  function RecordExtensions(b: bytes): Option<(nat, nat)> {
    if |b| < 6 || b[0] != 0x16 || b[5] != 0x01 then None
    else
      var session := Octet(b, 43);
      if session.None? then None
      else
        var at := 44 + session.value;
        var ciphers := Be16(b, at);
        if ciphers.None? then None
        else
          var at := at + 2 + ciphers.value;
          var compression := Octet(b, at);
          if compression.None? then None
          else
            var at := at + 1 + compression.value;
            var exts := Be16(b, at);
            if exts.None? then None else Some((at + 2, at + 2 + exts.value))
  }

  /** The host bytes of a server_name extension whose data starts at `body`. */
  function HostAt(b: bytes, body: nat): Option<(nat, nat)> {
    var entry := body + 2;
    if Octet(b, entry) != Some(0) || Be16(b, entry + 1).None? then None
    else
      var len := Be16(b, entry + 1).value;
      if len == 0 || entry + 3 + len > |b| then None else Some((entry + 3, entry + 3 + len))
  }

  function FindHost(b: bytes, at: nat, end: nat): Option<(nat, nat)>
    decreases Max(0, end - at)
  {
    if at + 4 > end || Be16(b, at).None? || Be16(b, at + 2).None? then None
    else if Be16(b, at).value == 0 then HostAt(b, at + 4)
    else FindHost(b, at + 4 + Be16(b, at + 2).value, end)
  }

  /** `sni_host_range`. */
  function SniHostRange(b: bytes): Option<(nat, nat)> {
    var e := RecordExtensions(b);
    if e.None? then None else FindHost(b, e.value.0, e.value.1)
  }

  method ReadSniHostRange(b: bytes) returns (r: Option<(nat, nat)>)
    ensures r == SniHostRange(b)
  {
    var e := RecordExtensions(b);
    if e.None? {
      return None;
    }
    var at, end := e.value.0, e.value.1;
    while at + 4 <= end
      invariant FindHost(b, at, end) == FindHost(b, e.value.0, end)
    {
      var kind := Be16(b, at);
      if kind.None? {
        return None;
      }
      var len := Be16(b, at + 2);
      if len.None? {
        return None;
      }
      if kind.value == 0 {
        return HostAt(b, at + 4);
      }
      at := at + 4 + len.value;
    }
    return None;
  }

  // ----- The two parsers agree -----

  /** `h` is the stretch of the record `b` that starts nine bytes in. */
  ghost predicate Inside(b: bytes, h: bytes) {
    9 + |h| <= |b| && forall i :: 0 <= i < |h| ==> h[i] == b[9 + i]
  }

  /** The ClientHello body is a stretch of the record starting nine bytes in. */
  lemma HelloIsInside(b: bytes)
    requires Hello(b).Some?
    ensures |b| >= 9 && b[0] == 0x16 && b[5] == 0x01
    ensures Inside(b, Hello(b).value)
  {
    var recordEnd := Min(5 + Be16(b, 3).value, |b|);
    var body := b[5..recordEnd];
    assert body[0] == b[5];
  }

  /** Both parsers skip the same session id, cipher suites and compression methods. */
  lemma ExtensionsAgree(b: bytes, h: bytes)
    requires Inside(b, h) && b[0] == 0x16 && b[5] == 0x01
    requires Extensions(h).Some?
    ensures var (s, e) := Extensions(h).value; RecordExtensions(b) == Some((s + 9, e + 9))
  {
    var p := 35 + h[34] as int;
    var q := p + 2 + U16(h[p], h[p + 1]);
    var r := q + 1 + h[q] as int;
    HelloLengths(h, p, q, r);
    assert b[43] == h[34];
    assert b[p + 9] == h[p] && b[p + 10] == h[p + 1];
    assert b[q + 9] == h[q];
    assert b[r + 9] == h[r] && b[r + 10] == h[r + 1];
    RecordLengths(b, p + 9, q + 9, r + 9);
  }

  /** The router reaches the extensions by four length fields. */
  lemma HelloLengths(h: bytes, p: nat, q: nat, r: nat)
    requires 34 < |h| && p == 35 + h[34] as int
    requires p + 1 < |h| && q == p + 2 + U16(h[p], h[p + 1])
    requires q < |h| && r == q + 1 + h[q] as int
    requires r + 1 < |h|
    ensures Extensions(h) == Some((r + 2, r + 2 + U16(h[r], h[r + 1])))
  {
  }

  /** The splitter reaches them by the same four, nine bytes further on. */
  lemma RecordLengths(b: bytes, p: nat, q: nat, r: nat)
    requires 43 < |b| && b[0] == 0x16 && b[5] == 0x01 && p == 44 + b[43] as int
    requires p + 1 < |b| && q == p + 2 + U16(b[p], b[p + 1])
    requires q < |b| && r == q + 1 + b[q] as int
    requires r + 1 < |b|
    ensures RecordExtensions(b) == Some((r + 2, r + 2 + U16(b[r], b[r + 1])))
  {
    assert Be16(b, p) == Some(U16(b[p], b[p + 1]));
    assert Octet(b, q) == Some(b[q] as int);
    assert Be16(b, r) == Some(U16(b[r], b[r + 1]));
  }

  /** Both parsers stop at the same server_name extension. */
  lemma {:induction false} FindsAgree(b: bytes, h: bytes, at: nat, end: nat, recordEnd: nat)
    requires Inside(b, h) && end <= |h| && end + 9 <= recordEnd
    requires FindServerName(h, at, end).Some?
    ensures FindHost(b, at + 9, recordEnd) == HostAt(b, FindServerName(h, at, end).value.0 + 9)
    decreases |h| - at
  {
    var len := U16(h[at + 2], h[at + 3]);
    if U16(h[at], h[at + 1]) != 0 {
      FindsAgree(b, h, at + 4 + len, end, recordEnd);
    }
  }

  /** A name is only ever returned from a non-empty entry that lies inside the extension. */
  lemma FirstEntry(data: bytes)
    requires FirstServerName(data).Some? && |data| > 2 && data[2] == 0
    ensures var len := U16(data[3], data[4]);
            && 0 < len && 5 + len <= |data| && PlausibleHost(data[5..5 + len]) == FirstServerName(data)
  {
  }

  lemma PartOfPart(b: bytes, at: nat, data: bytes, i: nat, j: nat)
    requires at + |data| <= |b| && data == b[at..at + |data|] && i <= j <= |data|
    ensures b[at + i..at + j] == data[i..j]
  {
    assert forall k :: 0 <= k < |data| ==> data[k] == b[at + k];
  }

  lemma FirstListedIsLong(data: bytes)
    requires FirstServerName(data).Some?
    ensures |data| >= 5
  {
  }

  /** On a list whose data starts at `at`, the splitter reads what the router reads from the first entry. */
  lemma EntriesAgree(b: bytes, at: nat, data: bytes)
    requires at + |data| <= |b| && data == b[at..at + |data|] && FirstServerName(data).Some?
    ensures |data| >= 5 && (HostAt(b, at).Some? <==> data[2] == 0)
    ensures HostAt(b, at).Some? ==>
              var (s, e) := HostAt(b, at).value;
              s < e <= |b| && PlausibleHost(b[s..e]) == FirstServerName(data)
  {
    FirstListedIsLong(data);
    assert data[2] == b[at + 2] && data[3] == b[at + 3] && data[4] == b[at + 4];
    if data[2] == 0 {
      FirstEntry(data);
      PartOfPart(b, at, data, 5, 5 + U16(data[3], data[4]));
    }
  }

  lemma SliceOfSlice(b: bytes, h: bytes, s: nat, e: nat)
    requires Inside(b, h) && s <= e <= |h|
    ensures h[s..e] == b[s + 9..e + 9]
  {
    var x, y := h[s..e], b[s + 9..e + 9];
    forall i | 0 <= i < |x| ensures x[i] == y[i] { assert h[s + i] == b[9 + (s + i)]; }
  }

  /** Where the router reads the list is where the splitter looks for the host. */
  lemma PositionsAgree(b: bytes, h: bytes, from: nat, to: nat)
    requires Inside(b, h)
    requires FindServerName(h, from, Min(to, |h|)).Some?
    ensures var (s, e) := FindServerName(h, from, Min(to, |h|)).value;
            && s <= e <= |h| && h[s..e] == b[s + 9..e + 9]
            && FindHost(b, from + 9, to + 9) == HostAt(b, s + 9)
  {
    FindIsInside(h, from, Min(to, |h|));
    var (s, e) := FindServerName(h, from, Min(to, |h|)).value;
    SliceOfSlice(b, h, s, e);
    FindsAgree(b, h, from, Min(to, |h|), to + 9);
  }

  /** The splitter looks for the host in the list the router reads. */
  lemma RangeIsAtTheList(b: bytes, h: bytes)
    requires Hello(b) == Some(h) && ServerNameExt(h).Some?
    ensures Inside(b, h)
    ensures var (s, e) := ServerNameExt(h).value;
            s <= e <= |h| && h[s..e] == b[s + 9..e + 9] && SniHostRange(b) == HostAt(b, s + 9)
  {
    HelloIsInside(b);
    ExtensionsAgree(b, h);
    var (from, to) := Extensions(h).value;
    RangeFrom(b, from + 9, to + 9);
    PositionsAgree(b, h, from, to);
  }

  lemma RangeFrom(b: bytes, from: nat, to: nat)
    requires RecordExtensions(b) == Some((from, to))
    ensures SniHostRange(b) == FindHost(b, from, to)
  {
  }

  /**
  The two ClientHello parsers agree: whenever the router reads a name, the
  splitter finds a range if and only if the first entry of the list is a host
  name, and then the range is in bounds and its bytes normalise to that very name.
  */
  lemma ParsersAgree(b: bytes)
    requires ServerName(b).Some?
    ensures Hello(b).Some? && ServerNameExt(Hello(b).value).Some?
    ensures var at := ServerNameExt(Hello(b).value).value.0 + 9;
            at + 5 <= |b| && (SniHostRange(b).Some? <==> b[at + 2] == 0)
    ensures SniHostRange(b).Some? ==>
              var (s, e) := SniHostRange(b).value;
              s < e <= |b| && PlausibleHost(b[s..e]) == ServerName(b)
  {
    var h := Hello(b).value;
    RangeIsAtTheList(b, h);
    var (s, e) := ServerNameExt(h).value;
    EntriesAgree(b, s + 9, h[s..e]);
  }

  lemma RawNameIsLongEnough(raw: bytes)
    requires PlausibleHost(raw).Some?
    ensures |raw| >= 2
  {
    PlausibleIsHostName(raw);
    TrimDotsEnds(TrimEnd(TrimStart(raw)));
    TrimsShorten(raw);
  }

  lemma TrimsShorten(b: bytes)
    ensures |TrimEnd(TrimStart(b))| <= |b|
  {
    TrimStartShortens(b);
    TrimEndShortens(TrimStart(b));
  }

  lemma {:induction false} TrimStartShortens(b: bytes)
    ensures |TrimStart(b)| <= |b|
    decreases |b|
  {
    if SpaceAtStart(b) > 0 {
      TrimStartShortens(b[SpaceAtStart(b)..]);
    }
  }

  lemma {:induction false} TrimEndShortens(b: bytes)
    ensures |TrimEnd(b)| <= |b|
    decreases |b|
  {
    if SpaceAtEnd(b) > 0 {
      TrimEndShortens(b[..|b| - SpaceAtEnd(b)]);
    }
  }

  lemma RangeIsOrdered(b: bytes)
    ensures SniHostRange(b).Some? ==> SniHostRange(b).value.0 < SniHostRange(b).value.1 <= |b|
  {
    if RecordExtensions(b).Some? {
      FindHostIsOrdered(b, RecordExtensions(b).value.0, RecordExtensions(b).value.1);
    }
  }

  lemma {:induction false} FindHostIsOrdered(b: bytes, at: nat, end: nat)
    ensures FindHost(b, at, end).Some? ==> FindHost(b, at, end).value.0 < FindHost(b, at, end).value.1 <= |b|
    decreases Max(0, end - at)
  {
    if at + 4 <= end && Be16(b, at).Some? && Be16(b, at + 2).Some? && Be16(b, at).value != 0 {
      FindHostIsOrdered(b, at + 4 + Be16(b, at + 2).value, end);
    }
  }

  /** Both readers look only into a handshake record that starts with a ClientHello. */
  lemma OnlyClientHellosAreRead(b: bytes)
    ensures SniHostRange(b).Some? || ServerName(b).Some? ==> |b| > 5 && b[0] == 0x16 && b[5] == 0x01
  {
  }
}
