/** Decoding a chunked HTTP body (section 7.1 of RFC 9112), whole or cut short. */
module Dechunk {
  import opened Common
  import opened Sniff

  const U64_MAX := 0xffff_ffff_ffff_ffff
  const CR: byte := 13
  const LF: byte := 10

  /** The first carriage return followed by a line feed. */
  function FindCrlf(b: bytes): (r: Option<nat>)
    ensures r.Some? ==> r.value + 2 <= |b|
  {
    if |b| < 2 then None
    else if b[0] == CR && b[1] == LF then Some(0)
    else
      var r := FindCrlf(b[1..]);
      if r.Some? then Some(r.value + 1) else None
  }

  predicate CrlfAt(b: bytes, i: nat) { i + 1 < |b| && b[i] == CR && b[i + 1] == LF }

  lemma {:induction false} CrlfIsTheFirst(b: bytes)
    ensures var r := FindCrlf(b);
            if r.None? then forall i: nat :: !CrlfAt(b, i)
            else CrlfAt(b, r.value) && forall i: nat :: i < r.value ==> !CrlfAt(b, i)
  {
    if |b| >= 2 && !CrlfAt(b, 0) {
      CrlfIsTheFirst(b[1..]);
      assert forall i: nat :: i > 0 ==> CrlfAt(b, i) == CrlfAt(b[1..], i - 1);
    }
  }

  /** What stands before the first semicolon. */
  function BeforeSemicolon(b: bytes): bytes {
    if b == [] || b[0] == 59 then [] else [b[0]] + BeforeSemicolon(b[1..])
  }

  function HexDigit(c: byte): Option<nat> {
    if 48 <= c <= 57 then Some(c as int - 48)
    else if 97 <= c <= 102 then Some(c as int - 87)
    else if 65 <= c <= 70 then Some(c as int - 55)
    else None
  }

  /** The number written by hexadecimal digits, if every byte is one. */
  function HexValue(b: bytes): Option<nat> {
    if b == [] then Some(0)
    else
      var high, low := HexValue(b[..|b| - 1]), HexDigit(b[|b| - 1]);
      if high.None? || low.None? then None else Some(high.value * 16 + low.value)
  }

  /** `usize::from_str_radix(token, 16)` on a 64-bit target. */
  function ParseHex(token: bytes): Option<nat> {
    var digits := if token != [] && token[0] == 43 then token[1..] else token;
    if digits == [] then None
    else
      var v := HexValue(digits);
      if v.Some? && v.value <= U64_MAX then v else None
  }

  /** The size announced by a chunk-size line, extensions and surrounding whitespace aside. */
  function SizeOf(line: bytes): Option<nat> {
    ParseHex(TrimEnd(TrimStart(BeforeSemicolon(line))))
  }

  /** Where the data of the chunk at the front of a body starts and ends, if it is a chunk and all there. */
  function OneChunk(b: bytes): (r: Option<(nat, nat)>)
    ensures r.Some? ==> 2 <= r.value.0 < r.value.1 <= |b|
  {
    var eol := FindCrlf(b);
    if eol.None? then None
    else
      var size := SizeOf(b[..eol.value]);
      if size.None? || size.value == 0 || eol.value + 2 + size.value > |b| then None
      else Some((eol.value + 2, eol.value + 2 + size.value))
  }

  /** What follows a chunk, the line break behind its data aside. */
  function Behind(b: bytes, end: nat): bytes { if end + 2 <= |b| then b[end + 2..] else [] }

  /** What `dechunk` makes of a body, read from its start. */
  function Dechunked(b: bytes): bytes
    decreases |b|
  {
    var c := OneChunk(b);
    if c.None? then [] else b[c.value.0..c.value.1] + Dechunked(Behind(b, c.value.1))
  }

  lemma DechunkedStep(b: bytes, data: bytes, rest: bytes)
    requires OneChunk(b).Some?
    requires data == b[OneChunk(b).value.0..OneChunk(b).value.1] && rest == Behind(b, OneChunk(b).value.1)
    ensures Dechunked(b) == data + Dechunked(rest)
  {
  }

  /** `dechunk`, advancing a cursor. */
  method DechunkBody(body: bytes) returns (out: bytes)
    ensures out == Dechunked(body)
  {
    out := [];
    var cursor := 0;
    assert body[0..] == body && [] + Dechunked(body) == Dechunked(body);
    ghost var rest := body;
    while cursor < |body|
      invariant rest == if cursor <= |body| then body[cursor..] else []
      invariant out + Dechunked(rest) == Dechunked(body)
      decreases |body| - cursor
    {
      var c := ReadChunk(body, cursor);
      if c.None? {
        assert out + [] == out;
        return;
      }
      var (start, end) := c.value;
      ghost var later := Behind(rest, end - cursor);
      ChunkAtCursor(body, cursor, start, end, out);
      out := out + body[start..end];
      cursor := end + 2;
      rest := later;
    }
    assert Dechunked([]) == [];
    assert out + [] == out;
  }

  lemma ChunkAtCursor(body: bytes, cursor: nat, start: nat, end: nat, out: bytes)
    requires cursor <= start <= end <= |body| && OneChunk(body[cursor..]) == Some((start - cursor, end - cursor))
    ensures var rest := body[cursor..];
            var later := Behind(rest, end - cursor);
            && out + Dechunked(rest) == out + body[start..end] + Dechunked(later)
            && later == if end + 2 <= |body| then body[end + 2..] else []
  {
    var rest := body[cursor..];
    var later := Behind(rest, end - cursor);
    SliceOfTail(body, cursor, start, end);
    DechunkedStep(rest, body[start..end], later);
    Assoc(out, body[start..end], Dechunked(later));
  }

  lemma SliceOfTail(body: bytes, cursor: nat, start: nat, end: nat)
    requires cursor <= start <= end <= |body|
    ensures body[start..end] == body[cursor..][start - cursor..end - cursor]
    ensures Behind(body[cursor..], end - cursor) == if end + 2 <= |body| then body[end + 2..] else []
  {
  }

  /** The body of the loop: the line at the cursor, the size it announces, and the data behind it. */
  method ReadChunk(body: bytes, cursor: nat) returns (r: Option<(nat, nat)>)
    requires cursor <= |body|
    ensures var c := OneChunk(body[cursor..]);
            if c.None? then r == None else r == Some((cursor + c.value.0, cursor + c.value.1))
  {
    var offset := FindCrlf(body[cursor..]);
    if offset.None? {
      return None;
    }
    var lineEnd := cursor + offset.value;
    assert body[cursor..lineEnd] == body[cursor..][..offset.value];
    var size := SizeOf(body[cursor..lineEnd]);
    if size.None? || size.value == 0 {
      return None;
    }
    var start := lineEnd + 2;
    if start + size.value > |body| {
      return None;
    }
    return Some((start, start + size.value));
  }

  // ----- The encoding -----

  /** A chunk as written: its size line, extensions included, and its data. */
  datatype Chunk = Chunk(line: bytes, data: bytes) {
    /** The line announces the data's length and holds no line break. */
    ghost predicate Valid() {
      FindCrlf(line).None? && SizeOf(line) == Some(|data|) && data != []
    }
  }

  function Encode(c: Chunk): bytes { c.line + [CR, LF] + c.data + [CR, LF] }

  function EncodeAll(cs: seq<Chunk>, last: bytes): bytes {
    if cs == [] then last else Encode(cs[0]) + EncodeAll(cs[1..], last)
  }

  /** What may follow the chunks: a size-zero line, then trailers or anything else. */
  ghost predicate Last(b: bytes) {
    FindCrlf(b).Some? ==> SizeOf(b[..FindCrlf(b).value]) == Some(0)
  }

  /** The data of the chunks that end within the first `k` bytes of the encoding. */
  function Present(cs: seq<Chunk>, k: nat): bytes {
    if cs == [] || |cs[0].line| + 2 + |cs[0].data| > k then []
    else cs[0].data + Present(cs[1..], SatSub(k, |Encode(cs[0])|))
  }

  function AllData(cs: seq<Chunk>): bytes {
    if cs == [] then [] else cs[0].data + AllData(cs[1..])
  }

  lemma {:induction false} CrlfAfterLine(line: bytes, rest: bytes)
    requires FindCrlf(line).None?
    ensures FindCrlf(line + [CR, LF] + rest) == Some(|line|)
  {
    var b := line + [CR, LF] + rest;
    if line != [] {
      assert b[1..] == line[1..] + [CR, LF] + rest;
      CrlfAfterLine(line[1..], rest);
    }
  }

  /** A line cut off before its end has no line break yet. */
  lemma {:induction false} NoCrlfInCutLine(line: bytes, rest: bytes, k: nat)
    requires FindCrlf(line).None? && k < |line| + 2
    ensures k <= |line + [CR, LF] + rest| && FindCrlf((line + [CR, LF] + rest)[..k]).None?
  {
    var b := line + [CR, LF] + rest;
    if k >= 2 {
      assert line != [];
      assert b[..k][1..] == (line[1..] + [CR, LF] + rest)[..k - 1];
      NoCrlfInCutLine(line[1..], rest, k - 1);
    }
  }

  lemma ChunkLayout(c: Chunk, rest: bytes, k: nat)
    requires |c.line| + 2 <= k <= |Encode(c) + rest|
    ensures var tail := (c.data + [CR, LF] + rest)[..k - |c.line| - 2];
            (Encode(c) + rest)[..k] == c.line + [CR, LF] + tail
  {
    assert Encode(c) + rest == c.line + [CR, LF] + (c.data + [CR, LF] + rest);
  }

  lemma ChunkSlices(c: Chunk, rest: bytes, k: nat)
    requires |c.line| + 2 + |c.data| <= k <= |Encode(c) + rest|
    ensures var b, n, d := (Encode(c) + rest)[..k], |c.line|, |c.data|;
            && b[n + 2..n + 2 + d] == c.data
            && Behind(b, n + 2 + d) == if k <= |Encode(c)| then [] else rest[..k - |Encode(c)|]
  {
    var b := (Encode(c) + rest)[..k];
    if k > |Encode(c)| {
      assert b[|Encode(c)|..] == rest[..k - |Encode(c)|];
    }
  }

  lemma FirstChunkIsFound(c: Chunk, rest: bytes, k: nat)
    requires c.Valid() && |c.line| + 2 <= k <= |Encode(c) + rest|
    ensures OneChunk((Encode(c) + rest)[..k]) ==
            if |c.line| + 2 + |c.data| <= k then Some((|c.line| + 2, |c.line| + 2 + |c.data|)) else None
  {
    var b := (Encode(c) + rest)[..k];
    var tail := (c.data + [CR, LF] + rest)[..k - |c.line| - 2];
    ChunkLayout(c, rest, k);
    CrlfAfterLine(c.line, tail);
    assert b[..|c.line|] == c.line;
  }

  /** A prefix long enough to hold a chunk's data decodes to that data and then the rest. */
  lemma FirstChunkDecodes(c: Chunk, rest: bytes, k: nat)
    requires c.Valid() && |c.line| + 2 + |c.data| <= k <= |Encode(c) + rest|
    ensures Dechunked((Encode(c) + rest)[..k]) ==
            c.data + Dechunked(if k <= |Encode(c)| then [] else rest[..k - |Encode(c)|])
  {
    FirstChunkIsFound(c, rest, k);
    ChunkSlices(c, rest, k);
    DechunkedStep((Encode(c) + rest)[..k], c.data, if k <= |Encode(c)| then [] else rest[..k - |Encode(c)|]);
  }

  /**
  Decoding inverts encoding, and does so under truncation: from the first `k`
  bytes of the encoding of any list of non-empty chunks, with any extensions, it
  returns exactly the data of the chunks that are wholly there.
  */
  lemma {:induction false} DecodesWhatIsPresent(cs: seq<Chunk>, last: bytes, k: nat)
    requires (forall c :: c in cs ==> c.Valid()) && k <= |EncodeAll(cs, last)|
    requires forall n :: 0 <= n <= |last| ==> Last(last[..n])
    ensures Dechunked(EncodeAll(cs, last)[..k]) == Present(cs, k)
    decreases |cs|
  {
    if cs == [] {
      assert Last(last[..k]);
    } else {
      var c, rest := cs[0], EncodeAll(cs[1..], last);
      assert c in cs;
      if |c.line| + 2 + |c.data| <= k {
        var k' := SatSub(k, |Encode(c)|);
        FirstChunkDecodes(c, rest, k);
        DecodesWhatIsPresent(cs[1..], last, k');
        assert rest[..k'] == if k <= |Encode(c)| then [] else rest[..k - |Encode(c)|];
      } else {
        CutChunkIsIgnored(c, rest, k);
      }
    }
  }

  lemma CutChunkIsIgnored(c: Chunk, rest: bytes, k: nat)
    requires c.Valid() && k < |c.line| + 2 + |c.data|
    ensures k <= |Encode(c) + rest| && Dechunked((Encode(c) + rest)[..k]) == []
  {
    if k < |c.line| + 2 {
      var behind := c.data + [CR, LF] + rest;
      assert Encode(c) + rest == c.line + [CR, LF] + behind;
      NoCrlfInCutLine(c.line, behind, k);
    } else {
      FirstChunkIsFound(c, rest, k);
    }
  }

  lemma {:induction false} AllPresent(cs: seq<Chunk>, last: bytes, k: nat)
    requires k >= |EncodeAll(cs, last)|
    ensures Present(cs, k) == AllData(cs)
    decreases |cs|
  {
    if cs != [] {
      AllPresent(cs[1..], last, k - |Encode(cs[0])|);
    }
  }

  /** The whole encoding decodes to the whole of the data. */
  lemma DecodesEverything(cs: seq<Chunk>, last: bytes)
    requires forall c :: c in cs ==> c.Valid()
    requires forall n :: 0 <= n <= |last| ==> Last(last[..n])
    ensures Dechunked(EncodeAll(cs, last)) == AllData(cs)
  {
    var k := |EncodeAll(cs, last)|;
    assert EncodeAll(cs, last)[..k] == EncodeAll(cs, last);
    DecodesWhatIsPresent(cs, last, k);
    AllPresent(cs, last, k);
  }

  // ----- Size lines -----

  function HexChar(d: nat): byte
    requires d < 16
  {
    if d < 10 then (48 + d) as byte else (87 + d) as byte
  }

  /** A number in lower-case hexadecimal, without leading zeros. */
  function Hex(n: nat): bytes {
    if n < 16 then [HexChar(n)] else Hex(n / 16) + [HexChar(n % 16)]
  }

  lemma {:induction false} HexReads(n: nat)
    ensures HexValue(Hex(n)) == Some(n) && Hex(n) != []
    ensures forall c :: c in Hex(n) ==> HexDigit(c).Some?
  {
    if n < 16 {
      assert [HexChar(n)][..0] == [];
      assert HexValue([]) == Some(0);
    } else {
      HexReads(n / 16);
      assert Hex(n)[..|Hex(n)| - 1] == Hex(n / 16);
    }
  }

  lemma {:induction false} SemicolonCuts(b: bytes, ext: bytes)
    requires 59 !in b && (ext == [] || ext[0] == 59)
    ensures BeforeSemicolon(b + ext) == b
  {
    if b == [] {
      assert b + ext == ext;
    } else {
      assert (b + ext)[1..] == b[1..] + ext;
      SemicolonCuts(b[1..], ext);
    }
  }

  /** Any size up to the machine's largest, in hexadecimal and with any extensions, is read back as written. */
  lemma SizeLineRoundTrip(n: nat, ext: bytes)
    requires n <= U64_MAX && (ext == [] || ext[0] == 59)
    ensures SizeOf(Hex(n) + ext) == Some(n)
  {
    var h := Hex(n);
    HexReads(n);
    assert h[0] in h && h[|h| - 1] in h;
    SemicolonCuts(h, ext);
    NothingToTrim(h);
  }

  lemma NothingToTrim(h: bytes)
    requires h != [] && HexDigit(h[0]).Some? && HexDigit(h[|h| - 1]).Some?
    ensures TrimEnd(TrimStart(h)) == h && h[0] != 43
  {
    assert SpaceAtStart(h) == 0 && SpaceAtEnd(h) == 0;
  }

  /** The byte is this digit, in either case. */
  predicate Writes(c: byte, d: nat) {
    (d < 10 && c as int == 48 + d) || (10 <= d < 16 && (c as int == 87 + d || c as int == 55 + d))
  }

  /** Digits read from the left. */
  function Base16(v: nat, ds: seq<nat>): nat
    decreases |ds|
  {
    if ds == [] then v else Base16(v * 16 + ds[0], ds[1..])
  }

  lemma {:induction false} Base16Snoc(v: nat, ds: seq<nat>)
    requires ds != []
    ensures Base16(v, ds) == Base16(v, ds[..|ds| - 1]) * 16 + ds[|ds| - 1]
    decreases |ds|
  {
    if |ds| > 1 {
      Base16Snoc(v * 16 + ds[0], ds[1..]);
      assert ds[1..][..|ds| - 2] == ds[..|ds| - 1][1..];
    }
  }

  ghost predicate Spells(digits: bytes, ds: seq<nat>) {
    |digits| == |ds| && forall i :: 0 <= i < |ds| ==> Writes(digits[i], ds[i])
  }

  lemma {:induction false} DigitsRead(digits: bytes, ds: seq<nat>)
    requires Spells(digits, ds)
    ensures HexValue(digits) == Some(Base16(0, ds))
    decreases |ds|
  {
    if ds != [] {
      DigitsRead(digits[..|ds| - 1], ds[..|ds| - 1]);
      Base16Snoc(0, ds);
      assert Writes(digits[|ds| - 1], ds[|ds| - 1]);
    }
  }

  lemma {:induction false} DigitsAreSpelled(digits: bytes) returns (ds: seq<nat>)
    requires HexValue(digits).Some?
    ensures Spells(digits, ds)
    decreases |digits|
  {
    ds := [];
    if digits != [] {
      var k := |digits| - 1;
      ds := DigitsAreSpelled(digits[..k]);
      assert forall i :: 0 <= i < k ==> Writes(digits[i], ds[i]) by {
        assert forall i :: 0 <= i < k ==> digits[i] == digits[..k][i];
      }
      ds := ds + [HexDigit(digits[k]).value];
    }
  }

  /** The optional sign and the digits. */
  function Token(plus: bool, digits: bytes): bytes { if plus then [43] + digits else digits }

  /** A size line: blanks around an optional plus sign and hexadecimal digits, then nothing or extensions. */
  function SizeLine(pre: seq<bytes>, plus: bool, digits: bytes, post: seq<bytes>, ext: bytes): bytes {
    Flatten(pre) + (Token(plus, digits) + Flatten(post)) + ext
  }

  lemma {:induction false} BlanksHoldNoSemicolon(ws: seq<bytes>)
    requires Blanks(ws)
    ensures 59 !in Flatten(ws)
  {
    if ws != [] {
      assert ws[0] in ws;
      BlanksHoldNoSemicolon(ws[1..]);
      assert 59 !in ws[0];
    }
  }

  lemma TokenIsTrimmed(pre: seq<bytes>, token: bytes, post: seq<bytes>)
    requires Blanks(pre) && Blanks(post) && token != []
    requires SpaceAtStart(token + Flatten(post)) == 0 && SpaceAtEnd(token) == 0
    ensures TrimEnd(TrimStart(Flatten(pre) + (token + Flatten(post)))) == token
  {
    BlanksAreTrimmedAtStart(pre, token + Flatten(post));
    BlanksAreTrimmedAtEnd(token, post);
  }

  lemma TokenParses(plus: bool, digits: bytes, ds: seq<nat>)
    requires Spells(digits, ds) && ds != []
    ensures ParseHex(Token(plus, digits)) == if Base16(0, ds) <= U64_MAX then Some(Base16(0, ds)) else None
  {
    assert Writes(digits[0], ds[0]);
    assert plus ==> Token(plus, digits)[1..] == digits;
    DigitsRead(digits, ds);
  }

  lemma TokenBytes(plus: bool, digits: bytes, ds: seq<nat>)
    requires Spells(digits, ds)
    ensures var t := Token(plus, digits); forall i :: 0 <= i < |t| ==> t[i] == 43 || HexDigit(t[i]).Some?
  {
    forall i | 0 <= i < |digits| ensures HexDigit(digits[i]).Some? {
      assert Writes(digits[i], ds[i]);
    }
  }

  lemma NoBlankInFront(token: bytes, post: bytes)
    requires token != [] && forall i :: 0 <= i < |token| ==> token[i] == 43 || HexDigit(token[i]).Some?
    ensures SpaceAtStart(token + post) == 0 && SpaceAtEnd(token) == 0 && 59 !in token
  {
    assert (token + post)[0] == token[0];
    var c := token[|token| - 1];
    assert c == 43 || HexDigit(c).Some?;
  }

  /**
  What a size line announces: the number its digits write, whatever their case and
  however many zeros lead, or nothing if it exceeds the machine's largest.
  */
  lemma SizeLineIsExact(pre: seq<bytes>, plus: bool, digits: bytes, ds: seq<nat>, post: seq<bytes>, ext: bytes)
    requires Blanks(pre) && Blanks(post) && Spells(digits, ds) && ds != [] && (ext == [] || ext[0] == 59)
    ensures SizeOf(SizeLine(pre, plus, digits, post, ext)) ==
            if Base16(0, ds) <= U64_MAX then Some(Base16(0, ds)) else None
  {
    var token := Token(plus, digits);
    TokenParses(plus, digits, ds);
    TokenBytes(plus, digits, ds);
    NoBlankInFront(token, Flatten(post));
    BlanksHoldNoSemicolon(pre);
    BlanksHoldNoSemicolon(post);
    SemicolonCuts(Flatten(pre) + (token + Flatten(post)), ext);
    TokenIsTrimmed(pre, token, post);
  }

  lemma {:induction false} BehindSemicolon(line: bytes)
    returns (ext: bytes)
    ensures line == BeforeSemicolon(line) + ext && (ext == [] || ext[0] == 59)
  {
    ext := line;
    if line != [] && line[0] != 59 {
      ext := BehindSemicolon(line[1..]);
      assert line == [line[0]] + line[1..];
      Assoc([line[0]], BeforeSemicolon(line[1..]), ext);
    } else {
      assert [] + line == line;
    }
  }

  lemma TokenIsSpelled(token: bytes) returns (plus: bool, digits: bytes, ds: seq<nat>)
    requires ParseHex(token).Some?
    ensures Spells(digits, ds) && ds != [] && token == Token(plus, digits)
  {
    plus := token[0] == 43;
    digits := if plus then token[1..] else token;
    ds := DigitsAreSpelled(digits);
    assert plus ==> token == [43] + digits;
  }

  /** Only such lines announce a size. */
  lemma SizeLinesAreSpelled(line: bytes)
    returns (pre: seq<bytes>, plus: bool, digits: bytes, ds: seq<nat>, post: seq<bytes>, ext: bytes)
    requires SizeOf(line).Some?
    ensures Blanks(pre) && Blanks(post) && Spells(digits, ds) && ds != [] && (ext == [] || ext[0] == 59)
    ensures line == SizeLine(pre, plus, digits, post, ext)
  {
    var b := BeforeSemicolon(line);
    ext := BehindSemicolon(line);
    pre := StartIsBlanks(b);
    post := EndIsBlanks(TrimStart(b));
    var token := TrimEnd(TrimStart(b));
    plus, digits, ds := TokenIsSpelled(token);
  }

  /** The terminating chunk and whatever trailers follow it end the decoding, wherever they are cut. */
  lemma LastChunkEnds(trailers: bytes, n: nat)
    requires n <= |[48, CR, LF] + trailers|
    ensures Last(([48, CR, LF] + trailers)[..n])
  {
    var b := [48, CR, LF] + trailers;
    assert b == [48] + [CR, LF] + trailers;
    if n < 3 {
      NoCrlfInCutLine([48], trailers, n);
    } else {
      assert b[..n] == [48] + [CR, LF] + trailers[..n - 3];
      CrlfAfterLine([48], trailers[..n - 3]);
      assert b[..n][..1] == [48];
      SizeLineRoundTrip(0, []);
      assert Hex(0) + [] == [48];
    }
  }
}
