/** Reading the server name out of a TLS ClientHello, as the router does before it picks a route. */
module Sniff {
  import opened Common

  const MAX_HOST_LEN := 253

  function Be16(b: bytes, at: nat): Option<nat> {
    if at + 1 < |b| then Some(U16(b[at], b[at + 1])) else None
  }

  function Be24(b: bytes, at: nat): Option<nat> {
    if at + 2 < |b| then Some((b[at] as int) * 65536 + U16(b[at + 1], b[at + 2])) else None
  }

  // ----- Host names -----

  /** Bytes taken by the whitespace character a string starts with; none if it does not. */
  function SpaceAtStart(b: bytes): (n: nat)
    ensures n <= |b|
  {
    if |b| >= 1 && (9 <= b[0] <= 13 || b[0] == 32) then 1
    else if |b| >= 2 && IsSpace2(b[0], b[1]) then 2
    else if |b| >= 3 && IsSpace3(b[0], b[1], b[2]) then 3
    else 0
  }

  /** Bytes taken by the whitespace character a string ends with; none if it does not. */
  function SpaceAtEnd(b: bytes): (n: nat)
    ensures n <= |b|
  {
    var k := |b|;
    if k >= 1 && (9 <= b[k - 1] <= 13 || b[k - 1] == 32) then 1
    else if k >= 2 && IsSpace2(b[k - 2], b[k - 1]) then 2
    else if k >= 3 && IsSpace3(b[k - 3], b[k - 2], b[k - 1]) then 3
    else 0
  }

  /** U+0085 and U+00A0 in UTF-8. */
  predicate IsSpace2(a: byte, b: byte) { a == 0xC2 && (b == 0x85 || b == 0xA0) }

  /** The three-byte whitespace characters: U+1680, U+2000 to U+200A, U+2028, U+2029, U+202F, U+205F, U+3000. */
  predicate IsSpace3(a: byte, b: byte, c: byte) {
    || (a == 0xE1 && b == 0x9A && c == 0x80)
    || (a == 0xE2 && b == 0x80 && ((0x80 <= c <= 0x8A) || c == 0xA8 || c == 0xA9 || c == 0xAF))
    || (a == 0xE2 && b == 0x81 && c == 0x9F)
    || (a == 0xE3 && b == 0x80 && c == 0x80)
  }

  function TrimStart(b: bytes): bytes
    decreases |b|
  {
    if SpaceAtStart(b) == 0 then b else TrimStart(b[SpaceAtStart(b)..])
  }

  function TrimEnd(b: bytes): bytes
    decreases |b|
  {
    if SpaceAtEnd(b) == 0 then b else TrimEnd(b[..|b| - SpaceAtEnd(b)])
  }

  function TrimDots(b: bytes): bytes {
    if b != [] && b[|b| - 1] == 46 then TrimDots(b[..|b| - 1]) else b
  }

  predicate Digit(c: byte) { 48 <= c <= 57 }

  predicate HostByte(c: byte) {
    Digit(c) || 65 <= c <= 90 || 97 <= c <= 122 || c == 45 || c == 46 || c == 95
  }

  function Lower(c: byte): byte { if 65 <= c <= 90 then c + 32 else c }

  function LowerAll(b: bytes): bytes { seq(|b|, i requires 0 <= i < |b| => Lower(b[i])) }

  /** Digits of one dotted-quad part at the front: one to three, no leading zero, at most 255. */
  function OctetLen(b: bytes): (n: nat)
    ensures n <= |b|
    ensures forall i :: 0 <= i < n ==> Digit(b[i])
  {
    if b == [] || !Digit(b[0]) then 0
    else if |b| == 1 || !Digit(b[1]) then 1
    else if b[0] == 48 then 0
    else if |b| == 2 || !Digit(b[2]) then 2
    else if (b[0] as int - 48) * 100 + (b[1] as int - 48) * 10 + (b[2] as int - 48) > 255 then 0
    else if |b| > 3 && Digit(b[3]) then 0
    else 3
  }

  /** Whether the text is `parts` dotted-quad parts. */
  predicate DottedQuad(b: bytes, parts: nat)
    requires parts > 0
  {
    var n := OctetLen(b);
    if n == 0 then false
    else if parts == 1 then n == |b|
    else n < |b| && b[n] == 46 && DottedQuad(b[n + 1..], parts - 1)
  }

  /** `plausible_host`: the name in lower case, if it can be one. */
  function PlausibleHost(raw: bytes): Option<bytes> {
    if raw == [] || |raw| > MAX_HOST_LEN then None
    else
      var name := TrimDots(TrimEnd(TrimStart(raw)));
      if name == [] || |name| > MAX_HOST_LEN then None
      else if (exists c :: c in name && !HostByte(c)) || 46 !in name then None
      else if DottedQuad(name, 4) then None
      else Some(LowerAll(name))
  }

  // ----- The ClientHello -----

  /** The body of the ClientHello inside the first record, as far as it has arrived. */
  function Hello(buf: bytes): Option<bytes> {
    if buf == [] || buf[0] != 0x16 || Be16(buf, 3).None? then None
    else
      var recordEnd := Min(5 + Be16(buf, 3).value, |buf|);
      var body := buf[5..recordEnd];
      if body == [] || body[0] != 0x01 || Be24(body, 1).None? then None
      else Some(body[4..Min(4 + Be24(body, 1).value, |body|)])
  }

  /** Where the extensions start and, as announced, end. */
  function Extensions(hello: bytes): Option<(nat, nat)> {
    if |hello| <= 34 then None
    else
      var at := 35 + hello[34] as int;
      if Be16(hello, at).None? then None
      else
        var at := at + 2 + Be16(hello, at).value;
        if at >= |hello| then None
        else
          var at := at + 1 + hello[at] as int;
          if Be16(hello, at).None? then None
          else Some((at + 2, at + 2 + Be16(hello, at).value))
  }

  /** The data of the first server_name extension at or after `at`. */
  function FindServerName(hello: bytes, at: nat, end: nat): Option<(nat, nat)>
    requires end <= |hello|
    decreases |hello| - at
  {
    if at + 4 > end then None
    else
      var kind, len := U16(hello[at], hello[at + 1]), U16(hello[at + 2], hello[at + 3]);
      if at + 4 + len > end then None
      else if kind == 0 then Some((at + 4, at + 4 + len))
      else FindServerName(hello, at + 4 + len, end)
  }

  /** The bytes of the first host_name entry of a server_name list (section 3 of RFC 6066). */
  function FirstHostName(data: bytes, at: nat, end: nat): Option<bytes>
    requires end <= |data|
    decreases |data| - at
  {
    if at + 3 > end then None
    else
      var len := U16(data[at + 1], data[at + 2]);
      if at + 3 + len > end then None
      else if data[at] == 0 then Some(data[at + 3..at + 3 + len])
      else FirstHostName(data, at + 3 + len, end)
  }

  /** The same for the data of the extension, which starts with the length of the list. */
  function FirstListed(data: bytes): Option<bytes> {
    if Be16(data, 0).None? then None else FirstHostName(data, 2, Min(2 + Be16(data, 0).value, |data|))
  }

  lemma {:induction false} HostNameWithin(data: bytes, at: nat, end: nat)
    requires end <= |data|
    ensures FirstHostName(data, at, end) == FirstHostName(data[..end], at, end)
    decreases end - at
  {
    if at + 3 <= end {
      var len := U16(data[at + 1], data[at + 2]);
      assert data[..end][at] == data[at] && data[..end][at + 1] == data[at + 1] && data[..end][at + 2] == data[at + 2];
      if at + 3 + len <= end {
        assert data[..end][at + 3..at + 3 + len] == data[at + 3..at + 3 + len];
        HostNameWithin(data, at + 3 + len, end);
      }
    }
  }

  /** The list ends where its length says: what stands behind it in the extension is not read. */
  lemma OnlyTheListIsRead(list: bytes, junk: bytes)
    requires |list| <= 0xffff
    ensures FirstListed(Word(|list|) + list + junk) == FirstListed(Word(|list|) + list)
  {
    var short := Word(|list|) + list;
    var data := short + junk;
    assert data[..|short|] == short && data[0] == short[0] && data[1] == short[1];
    HostNameWithin(data, 2, |short|);
  }

  function FirstServerName(data: bytes): Option<bytes> { Normalised(FirstListed(data)) }

  /** The name an entry stands for, if there is an entry and it is plausible. */
  function Normalised(raw: Option<bytes>): Option<bytes> { if raw.None? then None else PlausibleHost(raw.value) }

  /** Where `tls_sni` finds the server_name extension's data, as offsets into the ClientHello body. */
  function ServerNameExt(hello: bytes): Option<(nat, nat)> {
    var e := Extensions(hello);
    if e.None? then None else FindServerName(hello, e.value.0, Min(e.value.1, |hello|))
  }

  /** What `tls_sni` returns. */
  function ServerName(buf: bytes): Option<bytes> {
    var hello := Hello(buf);
    if hello.None? then None
    else
      var ext := ServerNameExt(hello.value);
      if ext.None? then None
      else
        FindStaysInside(hello.value);
        FirstServerName(hello.value[ext.value.0..ext.value.1])
  }

  lemma FindStaysInside(hello: bytes)
    requires ServerNameExt(hello).Some?
    ensures var (s, e) := ServerNameExt(hello).value; 4 <= s <= e <= |hello|
  {
    FindIsInside(hello, Extensions(hello).value.0, Min(Extensions(hello).value.1, |hello|));
  }

  lemma {:induction false} FindIsInside(hello: bytes, at: nat, end: nat)
    requires end <= |hello| && FindServerName(hello, at, end).Some?
    ensures var (s, e) := FindServerName(hello, at, end).value; at + 4 <= s <= e <= end
    decreases |hello| - at
  {
    var kind, len := U16(hello[at], hello[at + 1]), U16(hello[at + 2], hello[at + 3]);
    if kind != 0 {
      FindIsInside(hello, at + 4 + len, end);
    }
  }

  /** `tls_sni`. */
  method TlsSni(buf: bytes) returns (name: Option<bytes>)
    ensures name == ServerName(buf)
  {
    var hello := Hello(buf);
    if hello.None? {
      return None;
    }
    var h := hello.value;
    var ext := Extensions(h);
    if ext.None? {
      return None;
    }
    name := ReadExtensions(h, ext.value.0, Min(ext.value.1, |h|));
  }

  /** The loop over the extensions. */
  method ReadExtensions(h: bytes, start: nat, end: nat) returns (name: Option<bytes>)
    requires end <= |h|
    ensures FindServerName(h, start, end).None? ==> name == None
    ensures FindServerName(h, start, end).Some? ==>
              var (s, e) := FindServerName(h, start, end).value; s <= e <= |h| && name == FirstServerName(h[s..e])
  {
    var at := start;
    while at + 4 <= end
      invariant FindServerName(h, at, end) == FindServerName(h, start, end)
    {
      var kind, len := U16(h[at], h[at + 1]), U16(h[at + 2], h[at + 3]);
      var dataEnd := at + 4 + len;
      if dataEnd > end {
        return None;
      }
      if kind == 0 {
        name := ReadFirstServerName(h[at + 4..dataEnd]);
        return;
      }
      at := dataEnd;
    }
    return None;
  }

  /** `first_server_name`. */
  method ReadFirstServerName(data: bytes) returns (name: Option<bytes>)
    ensures name == FirstServerName(data)
  {
    if Be16(data, 0).None? {
      return None;
    }
    var end := Min(2 + Be16(data, 0).value, |data|);
    var at := 2;
    while at + 3 <= end
      invariant FirstHostName(data, at, end) == FirstHostName(data, 2, end)
      decreases end - at
    {
      var len := U16(data[at + 1], data[at + 2]);
      var start := at + 3;
      if start + len > end {
        return None;
      }
      if data[at] == 0 {
        return PlausibleHost(data[start..start + len]);
      }
      at := start + len;
    }
    return None;
  }

  // ----- A plausible host is in normal form -----

  /** What a returned name is: two to 253 lower-case host bytes with a dot, no dot at the end, not an address. */
  ghost predicate HostName(n: bytes) {
    && 2 <= |n| <= MAX_HOST_LEN
    && (forall c :: c in n ==> HostByte(c) && Lower(c) == c)
    && 46 in n && n[|n| - 1] != 46
    && !DottedQuad(n, 4)
  }

  lemma {:induction false} TrimDotsEnds(b: bytes)
    ensures var t := TrimDots(b); t <= b && (t != [] ==> t[|t| - 1] != 46)
  {
    if b != [] && b[|b| - 1] == 46 {
      TrimDotsEnds(b[..|b| - 1]);
    }
  }

  lemma {:induction false} DottedQuadBytes(b: bytes, parts: nat)
    requires parts > 0 && DottedQuad(b, parts)
    ensures forall c :: c in b ==> Digit(c) || c == 46
  {
    var n := OctetLen(b);
    if parts == 1 {
      assert b == b[..n];
    } else {
      DottedQuadBytes(b[n + 1..], parts - 1);
      assert b == b[..n] + [b[n]] + b[n + 1..];
    }
  }

  lemma PlausibleIsHostName(raw: bytes)
    requires PlausibleHost(raw).Some?
    ensures HostName(PlausibleHost(raw).value)
  {
    var name := TrimDots(TrimEnd(TrimStart(raw)));
    var n := LowerAll(name);
    TrimDotsEnds(TrimEnd(TrimStart(raw)));
    assert forall c :: c in name ==> HostByte(c);
    forall c | c in n ensures HostByte(c) && Lower(c) == c {
      var i :| 0 <= i < |n| && n[i] == c;
      assert name[i] in name;
    }
    var d :| 0 <= d < |name| && name[d] == 46;
    assert n[d] == 46;
    assert name[|name| - 1] != 46;
    if DottedQuad(n, 4) {
      QuadSurvivesLower(name);
    }
  }

  /** Lower-casing never makes an address out of a name. */
  lemma QuadSurvivesLower(name: bytes)
    requires DottedQuad(LowerAll(name), 4)
    ensures LowerAll(name) == name
  {
    var n := LowerAll(name);
    DottedQuadBytes(n, 4);
    forall i | 0 <= i < |n| ensures n[i] == name[i] { assert n[i] in n; }
  }

  /** Host names are exactly the names that normalise to themselves, so normalising twice is normalising once. */
  lemma HostNamesAreFixed(n: bytes)
    ensures HostName(n) <==> PlausibleHost(n) == Some(n)
  {
    if HostName(n) {
      assert n[0] in n && n[|n| - 1] in n;
      assert SpaceAtStart(n) == 0 && SpaceAtEnd(n) == 0;
      assert TrimDots(TrimEnd(TrimStart(n))) == n;
      assert LowerAll(n) == n by {
        forall i | 0 <= i < |n| ensures Lower(n[i]) == n[i] { assert n[i] in n; }
      }
    }
    if PlausibleHost(n) == Some(n) {
      PlausibleIsHostName(n);
    }
  }

  // ----- Which texts are addresses -----

  /** A byte in decimal, without leading zeros. */
  function Decimal(v: byte): bytes {
    if v < 10 then [48 + v]
    else if v < 100 then [48 + v / 10, 48 + v % 10]
    else [48 + v / 100, 48 + v / 10 % 10, 48 + v % 10]
  }

  /** Numbers in decimal with a dot between each two. */
  function Dotted(vs: seq<byte>): bytes
    requires vs != []
  {
    if |vs| == 1 then Decimal(vs[0]) else Decimal(vs[0]) + [46] + Dotted(vs[1..])
  }

  lemma OctetOfDecimal(v: byte, rest: bytes)
    requires rest == [] || !Digit(rest[0])
    ensures OctetLen(Decimal(v) + rest) == |Decimal(v)|
  {
  }

  lemma DecimalOfOctet(b: bytes) returns (v: byte)
    requires OctetLen(b) > 0
    ensures b[..OctetLen(b)] == Decimal(v) && (OctetLen(b) < |b| ==> !Digit(b[OctetLen(b)]))
  {
    var n := OctetLen(b);
    var d := b[0] as int - 48;
    if n == 1 {
      v := d;
    } else if n == 2 {
      v := d * 10 + (b[1] as int - 48);
    } else {
      v := d * 100 + (b[1] as int - 48) * 10 + (b[2] as int - 48);
    }
    assert |b[..n]| == |Decimal(v)|;
  }

  lemma QuadStep(b: bytes, d: bytes, rest: bytes, parts: nat)
    requires parts > 1 && b == d + [46] + rest && OctetLen(b) == |d| > 0
    ensures DottedQuad(b, parts) <==> DottedQuad(rest, parts - 1)
  {
    assert b[|d| + 1..] == rest && b[|d|] == 46;
  }

  lemma {:induction false} DottedIsQuad(vs: seq<byte>)
    requires vs != []
    ensures DottedQuad(Dotted(vs), |vs|)
  {
    var d := Decimal(vs[0]);
    if |vs| == 1 {
      OctetOfDecimal(vs[0], []);
      assert d + [] == d;
    } else {
      DottedIsQuad(vs[1..]);
      OctetOfDecimal(vs[0], [46] + Dotted(vs[1..]));
      assert d + ([46] + Dotted(vs[1..])) == Dotted(vs);
      QuadStep(Dotted(vs), d, Dotted(vs[1..]), |vs|);
    }
  }

  lemma AroundTheDot(b: bytes, n: nat)
    requires n < |b| && b[n] == 46
    ensures b == b[..n] + [46] + b[n + 1..]
  {
  }

  lemma {:induction false} QuadIsDotted(b: bytes, parts: nat) returns (vs: seq<byte>)
    requires parts > 0 && DottedQuad(b, parts)
    ensures |vs| == parts && b == Dotted(vs)
    decreases parts
  {
    var n := OctetLen(b);
    var v := DecimalOfOctet(b);
    vs := [v];
    if parts == 1 {
      assert b[..n] == b;
    } else {
      AroundTheDot(b, n);
      var more := QuadIsDotted(b[n + 1..], parts - 1);
      vs := [v] + more;
      assert vs[1..] == more;
    }
  }

  /** A text is refused as an address exactly when it is four bytes in decimal with dots between them. */
  lemma AddressesAreExact(b: bytes)
    ensures DottedQuad(b, 4) <==> exists vs: seq<byte> :: |vs| == 4 && b == Dotted(vs)
  {
    if DottedQuad(b, 4) {
      var vs := QuadIsDotted(b, 4);
    }
    if vs: seq<byte> :| |vs| == 4 && b == Dotted(vs) {
      DottedIsQuad(vs);
    }
  }

  // ----- Which texts name a host -----

  /** A code point below 0x10000 in UTF-8. */
  function Utf8(cp: nat): bytes
    requires cp < 0x1_0000
  {
    if cp < 0x80 then [cp]
    else if cp < 0x800 then [0xC0 + cp / 0x40, 0x80 + cp % 0x40]
    else [0xE0 + cp / 0x1000, 0x80 + cp / 0x40 % 0x40, 0x80 + cp % 0x40]
  }

  /** The code points with the Unicode property White_Space. */
  predicate WhiteSpace(cp: nat) {
    || 0x9 <= cp <= 0xD || cp == 0x20 || cp == 0x85 || cp == 0xA0 || cp == 0x1680 || 0x2000 <= cp <= 0x200A
    || cp == 0x2028 || cp == 0x2029 || cp == 0x202F || cp == 0x205F || cp == 0x3000
  }

  /** One whitespace character in UTF-8. */
  ghost predicate Blank(w: bytes) { exists cp :: WhiteSpace(cp) && w == Utf8(cp) }

  /** The forms in which the trimming recognises one. */
  predicate BlankForm(w: bytes) {
    || (|w| == 1 && (9 <= w[0] <= 13 || w[0] == 32))
    || (|w| == 2 && IsSpace2(w[0], w[1]))
    || (|w| == 3 && IsSpace3(w[0], w[1], w[2]))
  }

  lemma WhiteSpaceHasAForm(cp: nat)
    requires WhiteSpace(cp)
    ensures BlankForm(Utf8(cp))
  {
  }

  lemma FormIsWhiteSpace(w: bytes) returns (cp: nat)
    requires BlankForm(w)
    ensures WhiteSpace(cp) && w == Utf8(cp)
  {
    if |w| == 1 {
      cp := w[0];
    } else if |w| == 2 {
      cp := w[1];
    } else {
      var page := if w[0] == 0xE1 then 0x1680
                  else if w[0] == 0xE3 then 0x3000
                  else if w[1] == 0x80 then 0x2000 else 0x2040;
      cp := page + (w[2] as int - 0x80);
    }
  }

  lemma BlankFormsAreExact(w: bytes)
    ensures BlankForm(w) <==> Blank(w)
  {
    if cp :| WhiteSpace(cp) && w == Utf8(cp) {
      WhiteSpaceHasAForm(cp);
    }
    if BlankForm(w) {
      var cp := FormIsWhiteSpace(w);
    }
  }

  ghost predicate Blanks(ws: seq<bytes>) { forall w :: w in ws ==> Blank(w) }

  /** ASCII letters and digits, the hyphen, the dot and the underscore. */
  predicate HostChar(c: byte) {
    var ch := c as char;
    'a' <= ch <= 'z' || 'A' <= ch <= 'Z' || '0' <= ch <= '9' || ch == '-' || ch == '.' || ch == '_'
  }

  /** A host name in any case, before normalising: host characters, the last of them no dot. */
  ghost predicate Stem(name: bytes) {
    name != [] && (forall c :: c in name ==> HostChar(c)) && name[|name| - 1] != 46
  }

  lemma HostBytesAreHostChars(c: byte)
    ensures HostByte(c) <==> HostChar(c)
  {
  }

  lemma BlankAtStart(w: bytes, rest: bytes)
    requires Blank(w)
    ensures SpaceAtStart(w + rest) == |w| && (w + rest)[|w|..] == rest
  {
    BlankFormsAreExact(w);
    var b := w + rest;
    assert forall i :: 0 <= i < |w| ==> b[i] == w[i];
  }

  lemma BlankAtEnd(rest: bytes, w: bytes)
    requires Blank(w)
    ensures SpaceAtEnd(rest + w) == |w| && (rest + w)[..|rest|] == rest
  {
    BlankFormsAreExact(w);
    var b := rest + w;
    assert forall i :: 0 <= i < |w| ==> b[|rest| + i] == w[i];
  }

  lemma {:induction false} BlanksAreTrimmedAtStart(ws: seq<bytes>, rest: bytes)
    requires Blanks(ws)
    ensures TrimStart(Flatten(ws) + rest) == TrimStart(rest)
    decreases |ws|
  {
    if ws == [] {
      assert [] + rest == rest;
    } else {
      assert ws[0] in ws;
      var more := Flatten(ws[1..]);
      Assoc(ws[0], more, rest);
      BlankAtStart(ws[0], more + rest);
      BlanksAreTrimmedAtStart(ws[1..], rest);
    }
  }

  lemma {:induction false} BlanksAreTrimmedAtEnd(rest: bytes, ws: seq<bytes>)
    requires Blanks(ws)
    ensures TrimEnd(rest + Flatten(ws)) == TrimEnd(rest)
    decreases |ws|
  {
    if ws == [] {
      assert rest + [] == rest;
    } else {
      var last, front := ws[|ws| - 1], ws[..|ws| - 1];
      assert last in ws;
      FlattenAppend(front, [last]);
      assert front + [last] == ws && Flatten([last]) == last + [] == last;
      Assoc(rest, Flatten(front), last);
      BlankAtEnd(rest + Flatten(front), last);
      assert rest + Flatten(ws) == rest + Flatten(front) + last;
      BlanksAreTrimmedAtEnd(rest, front);
    }
  }

  /** A run of dots. */
  function Dots(n: nat): bytes { seq(n, i => 46) }

  lemma {:induction false} DotsAreTrimmed(name: bytes, n: nat)
    requires name != [] && name[|name| - 1] != 46
    ensures TrimDots(name + Dots(n)) == name
  {
    if n == 0 {
      assert name + Dots(0) == name;
    } else {
      assert (name + Dots(n))[..|name| + n - 1] == name + Dots(n - 1);
      DotsAreTrimmed(name, n - 1);
    }
  }

  lemma HostByteKeepsStart(b: bytes)
    requires b != [] && HostByte(b[0])
    ensures TrimStart(b) == b
  {
  }

  lemma HostByteKeepsEnd(b: bytes)
    requires b != [] && HostByte(b[|b| - 1])
    ensures TrimEnd(b) == b
  {
    assert SpaceAtEnd(b) == 0;
  }

  lemma StemThenDots(name: bytes, dots: nat, post: bytes)
    requires Stem(name)
    ensures var core := name + Dots(dots);
            core != [] && HostByte(core[|core| - 1]) && core + post != [] && HostByte((core + post)[0])
  {
    assert name[0] in name && name[|name| - 1] in name;
    var core := name + Dots(dots);
    assert (core + post)[0] == name[0];
    assert core[|core| - 1] == if dots == 0 then name[|name| - 1] else 46;
  }

  lemma CoreIsTrimmed(pre: seq<bytes>, core: bytes, post: seq<bytes>)
    requires Blanks(pre) && Blanks(post) && core != [] && HostByte(core[|core| - 1])
    requires HostByte((core + Flatten(post))[0])
    ensures TrimEnd(TrimStart(Flatten(pre) + (core + Flatten(post)))) == core
  {
    BlanksAreTrimmedAtStart(pre, core + Flatten(post));
    HostByteKeepsStart(core + Flatten(post));
    BlanksAreTrimmedAtEnd(core, post);
    HostByteKeepsEnd(core);
  }

  lemma StemIsTrimmed(pre: seq<bytes>, name: bytes, dots: nat, post: seq<bytes>)
    requires Blanks(pre) && Stem(name) && Blanks(post)
    ensures TrimDots(TrimEnd(TrimStart(Flatten(pre) + (name + Dots(dots) + Flatten(post))))) == name
  {
    StemThenDots(name, dots, Flatten(post));
    CoreIsTrimmed(pre, name + Dots(dots), post);
    DotsAreTrimmed(name, dots);
  }

  /**
  Which host a text names, exactly: blanks around a name, dots behind it and the
  case of its letters make no difference; it is refused if and only if the text is
  too long, the name has no dot, or it is an address in dotted decimal.
  */
  lemma HostIsExact(pre: seq<bytes>, name: bytes, dots: nat, post: seq<bytes>)
    requires Blanks(pre) && Stem(name) && Blanks(post)
    ensures var raw := Flatten(pre) + (name + Dots(dots) + Flatten(post));
            var host := PlausibleHost(raw);
            && (host.Some? <==>
                  |raw| <= MAX_HOST_LEN && 46 in name && !exists vs: seq<byte> :: |vs| == 4 && name == Dotted(vs))
            && (host.Some? ==>
                  && |host.value| == |name|
                  && forall i :: 0 <= i < |name| ==>
                       host.value[i] == if 65 <= name[i] <= 90 then name[i] + 32 else name[i])
  {
    StemIsTrimmed(pre, name, dots, post);
    AddressesAreExact(name);
    assert |Flatten(pre) + (name + Dots(dots) + Flatten(post))| >= |name|;
  }

  lemma BlankFoundAtStart(b: bytes)
    requires SpaceAtStart(b) > 0
    ensures var n := SpaceAtStart(b); Blank(b[..n]) && b == b[..n] + b[n..] && TrimStart(b) == TrimStart(b[n..])
  {
    var w := b[..SpaceAtStart(b)];
    BlankFormsAreExact(w);
    assert forall i :: 0 <= i < |w| ==> w[i] == b[i];
  }

  lemma FormAtEnd(b: bytes, k: nat)
    requires k < |b| && SpaceAtEnd(b) == |b| - k
    ensures BlankForm(b[k..])
  {
    assert forall i :: 0 <= i < |b| - k ==> b[k..][i] == b[k + i];
  }

  lemma CutAt(b: bytes, k: nat)
    requires k <= |b|
    ensures b == b[..k] + b[k..]
  {
  }

  lemma BlankFoundAtEnd(b: bytes, k: nat)
    requires k < |b| && SpaceAtEnd(b) == |b| - k
    ensures Blank(b[k..]) && TrimEnd(b) == TrimEnd(b[..k])
  {
    FormAtEnd(b, k);
    BlankFormsAreExact(b[k..]);
  }

  lemma BlanksCons(w: bytes, ws: seq<bytes>, rest: bytes)
    requires Blank(w) && Blanks(ws)
    ensures Blanks([w] + ws) && Flatten([w] + ws) + rest == w + (Flatten(ws) + rest)
  {
    assert ([w] + ws)[1..] == ws;
    Assoc(w, Flatten(ws), rest);
  }

  lemma BlanksSnoc(rest: bytes, ws: seq<bytes>, w: bytes)
    requires Blank(w) && Blanks(ws)
    ensures Blanks(ws + [w]) && rest + Flatten(ws + [w]) == rest + Flatten(ws) + w
  {
    FlattenAppend(ws, [w]);
    assert Flatten([w]) == w + [] == w;
    Assoc(rest, Flatten(ws), w);
  }

  lemma {:induction false} StartIsBlanks(b: bytes) returns (ws: seq<bytes>)
    ensures Blanks(ws) && b == Flatten(ws) + TrimStart(b)
    decreases |b|
  {
    var n := SpaceAtStart(b);
    ws := [];
    if n == 0 {
      assert [] + b == b;
    } else {
      BlankFoundAtStart(b);
      var more := StartIsBlanks(b[n..]);
      BlanksCons(b[..n], more, TrimStart(b));
      ws := [b[..n]] + more;
    }
  }

  lemma {:induction false} EndIsBlanks(b: bytes) returns (ws: seq<bytes>)
    ensures Blanks(ws) && b == TrimEnd(b) + Flatten(ws)
    decreases |b|
  {
    var n := SpaceAtEnd(b);
    ws := [];
    if n == 0 {
      assert b + [] == b;
    } else {
      var k := |b| - n;
      BlankFoundAtEnd(b, k);
      CutAt(b, k);
      var more := EndIsBlanks(b[..k]);
      BlanksSnoc(TrimEnd(b), more, b[k..]);
      ws := more + [b[k..]];
    }
  }

  lemma {:induction false} EndIsDots(b: bytes) returns (n: nat)
    ensures b == TrimDots(b) + Dots(n)
  {
    n := 0;
    if b != [] && b[|b| - 1] == 46 {
      n := EndIsDots(b[..|b| - 1]);
      assert Dots(n + 1) == Dots(n) + [46];
      Assoc(TrimDots(b), Dots(n), [46]);
      assert b == b[..|b| - 1] + [46];
      n := n + 1;
    } else {
      assert b + Dots(0) == b;
    }
  }

  /** Only such texts name a host. */
  lemma HostsAreSpelled(raw: bytes) returns (pre: seq<bytes>, name: bytes, dots: nat, post: seq<bytes>)
    requires PlausibleHost(raw).Some?
    ensures Blanks(pre) && Stem(name) && Blanks(post)
    ensures raw == Flatten(pre) + (name + Dots(dots) + Flatten(post))
  {
    pre := StartIsBlanks(raw);
    post := EndIsBlanks(TrimStart(raw));
    dots := EndIsDots(TrimEnd(TrimStart(raw)));
    name := TrimDots(TrimEnd(TrimStart(raw)));
    TrimDotsEnds(TrimEnd(TrimStart(raw)));
  }
}
