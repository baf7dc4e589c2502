/**
Removing comments from a settings file before it is parsed as JSON. The loop
works character by character; its meaning is given by reading the text as
tokens.
*/
module Json5 {
  import opened Common

  // ----- The text as tokens -----

  datatype Token =
    | Text(c: char)         // one character outside strings and comments
    | Literal(s: string)    // a string literal with its quotes; the last one may be unterminated
    | Line(s: string)       // a line comment with its line break, if any
    | Block(s: string)      // a block comment with its delimiters; the last one may be unterminated

  /** Characters up to and including the closing quote. */
  function InString(t: string, escaped: bool): (n: nat)
    ensures n <= |t|
  {
    if t == [] then 0
    else if !escaped && t[0] == '"' then 1
    else 1 + InString(t[1..], !escaped && t[0] == '\\')
  }

  /** Characters up to and including the line break. */
  function ToLineEnd(t: string): (n: nat)
    ensures n <= |t|
  {
    if t == [] then 0 else if t[0] == '\n' then 1 else 1 + ToLineEnd(t[1..])
  }

  /** Characters up to and including the closing delimiter, `last` being the character before them. */
  function ToBlockEnd(t: string, last: char): (n: nat)
    ensures n <= |t|
  {
    if t == [] then 0 else if last == '*' && t[0] == '/' then 1 else 1 + ToBlockEnd(t[1..], t[0])
  }

  predicate OpensBlock(t: string) { |t| > 1 && t[0] == '/' && t[1] == '*' }

  predicate OpensLine(t: string) { |t| > 1 && t[0] == '/' && t[1] == '/' }

  /** The length of the token at the front of a text. */
  function Width(t: string): (n: nat)
    requires t != []
    ensures 0 < n <= |t|
  {
    if t[0] == '"' then 1 + InString(t[1..], false)
    else if OpensBlock(t) then 2 + ToBlockEnd(t[2..], '\0')
    else if OpensLine(t) then 1 + ToLineEnd(t[1..])
    else 1
  }

  function Front(t: string): Token
    requires t != []
  {
    var s := t[..Width(t)];
    if t[0] == '"' then Literal(s)
    else if OpensBlock(t) then Block(s)
    else if OpensLine(t) then Line(s)
    else Text(t[0])
  }

  function Lex(t: string): seq<Token>
    decreases |t|
  {
    if t == [] then [] else [Front(t)] + Lex(t[Width(t)..])
  }

  function Source(k: Token): string { if k.Text? then [k.c] else k.s }

  function SourceOf(ks: seq<Token>): string {
    if ks == [] then [] else Source(ks[0]) + SourceOf(ks[1..])
  }

  /** What each token leaves in the cleaned text: a comment leaves one blank or one line break. */
  function Kept(k: Token): string {
    match k
    case Text(c) => [c]
    case Literal(s) => s
    case Line(_) => "\n"
    case Block(_) => " "
  }

  function KeptOf(ks: seq<Token>): string {
    if ks == [] then [] else Kept(ks[0]) + KeptOf(ks[1..])
  }

  /** The text without its comments. */
  function Stripped(t: string): string { KeptOf(Lex(t)) }

  /** A token with a comment replaced by the character it leaves behind. */
  function Simplified(k: Token): Token {
    match k
    case Line(_) => Text('\n')
    case Block(_) => Text(' ')
    case _ => k
  }

  function SimplifiedAll(ks: seq<Token>): seq<Token> {
    seq(|ks|, i requires 0 <= i < |ks| => Simplified(ks[i]))
  }

  // ----- The loop -----

  /** The loop of `json5_ish` from a given state. */
  function Scan(t: string, inString: bool, escaped: bool): string
    decreases |t|
  {
    if t == [] then []
    else if inString then
      [t[0]] + Scan(t[1..], escaped || t[0] != '"', !escaped && t[0] == '\\')
    else if t[0] == '"' then [t[0]] + Scan(t[1..], true, false)
    else if OpensBlock(t) then " " + Scan(t[2 + ToBlockEnd(t[2..], '\0')..], false, false)
    else if OpensLine(t) then "\n" + Scan(t[1 + ToLineEnd(t[1..])..], false, false)
    else [t[0]] + Scan(t[1..], false, false)
  }

  lemma {:induction false} ScanString(t: string, escaped: bool)
    ensures var n := InString(t, escaped); Scan(t, true, escaped) == t[..n] + Scan(t[n..], false, false)
    decreases |t|
  {
    if t != [] {
      if !escaped && t[0] == '"' {
        assert t[..1] == [t[0]];
      } else {
        var e := !escaped && t[0] == '\\';
        var n := InString(t[1..], e);
        ScanString(t[1..], e);
        assert [t[0]] + t[1..][..n] == t[..n + 1] && t[1..][n..] == t[n + 1..];
        assert [t[0]] + (t[1..][..n] + Scan(t[n + 1..], false, false)) == t[..n + 1] + Scan(t[n + 1..], false, false);
      }
    }
  }

  /** The character loop takes one token at a time. */
  lemma ScanFront(t: string)
    requires t != []
    ensures Scan(t, false, false) == Kept(Front(t)) + Scan(t[Width(t)..], false, false)
  {
    if t[0] == '"' {
      var n, w := InString(t[1..], false), Width(t);
      ScanString(t[1..], false);
      assert t[1..][n..] == t[w..] && [t[0]] + t[1..][..n] == t[..w];
      Assoc([t[0]], t[1..][..n], Scan(t[w..], false, false));
    }
  }

  /** The character loop computes the token reading. */
  lemma {:induction false} ScanIsStripped(t: string)
    ensures Scan(t, false, false) == Stripped(t)
    decreases |t|
  {
    if t != [] {
      ScanFront(t);
      ScanIsStripped(t[Width(t)..]);
      assert Lex(t)[0] == Front(t) && Lex(t)[1..] == Lex(t[Width(t)..]);
    }
  }

  /** The comment-stripping loop of `json5_ish`. */
  method Strip(text: string) returns (cleaned: string)
    ensures cleaned == Stripped(text)
  {
    cleaned := [];
    var i, inString, escaped := 0, false, false;
    ScanIsStripped(text);
    assert text[0..] == text && [] + Scan(text, false, false) == Scan(text, false, false);
    while i < |text|
      invariant i <= |text| && (escaped ==> inString)
      invariant cleaned + Scan(text[i..], inString, escaped) == Stripped(text)
    {
      ghost var rest, before := text[i..], cleaned;
      var c := text[i];
      i := i + 1;
      assert rest[1..] == text[i..];
      if inString {
        cleaned := cleaned + [c];
        if escaped {
          escaped := false;
        } else if c == '\\' {
          escaped := true;
        } else if c == '"' {
          inString := false;
        }
        Assoc(before, [c], Scan(text[i..], inString, escaped));
        continue;
      }
      if c == '"' {
        inString := true;
        cleaned := cleaned + [c];
        Assoc(before, [c], Scan(text[i..], true, false));
      } else if c == '/' && i < |text| && text[i] == '*' {
        i := i + 1;
        i := SkipBlock(text, i);
        assert rest[2..] == text[i - ToBlockEnd(rest[2..], '\0')..];
        assert rest[2 + ToBlockEnd(rest[2..], '\0')..] == text[i..];
        cleaned := cleaned + " ";
        Assoc(before, " ", Scan(text[i..], false, false));
      } else if c == '/' && i < |text| && text[i] == '/' {
        i := SkipLine(text, i);
        assert rest[1 + ToLineEnd(rest[1..])..] == text[i..];
        cleaned := cleaned + "\n";
        Assoc(before, "\n", Scan(text[i..], false, false));
      } else {
        cleaned := cleaned + [c];
        Assoc(before, [c], Scan(text[i..], false, false));
      }
    }
    assert cleaned + [] == cleaned;
  }

  method SkipBlock(text: string, at: nat) returns (i: nat)
    requires at <= |text|
    ensures i == at + ToBlockEnd(text[at..], '\0')
  {
    i := at;
    var last := '\0';
    while i < |text|
      invariant at <= i <= |text| && i + ToBlockEnd(text[i..], last) == at + ToBlockEnd(text[at..], '\0')
    {
      var n := text[i];
      assert text[i..][1..] == text[i + 1..];
      i := i + 1;
      if last == '*' && n == '/' {
        return;
      }
      last := n;
    }
  }

  method SkipLine(text: string, at: nat) returns (i: nat)
    requires at <= |text|
    ensures i == at + ToLineEnd(text[at..])
  {
    i := at;
    while i < |text|
      invariant at <= i <= |text| && i + ToLineEnd(text[i..]) == at + ToLineEnd(text[at..])
    {
      var n := text[i];
      assert text[i..][1..] == text[i + 1..];
      i := i + 1;
      if n == '\n' {
        return;
      }
    }
  }

  // ----- Meaning is preserved -----

  /** Reading a text as tokens loses nothing. */
  lemma {:induction false} LexIsFaithful(t: string)
    ensures SourceOf(Lex(t)) == t
    decreases |t|
  {
    if t != [] {
      LexIsFaithful(t[Width(t)..]);
      assert t == t[..Width(t)] + t[Width(t)..];
      assert Source(Front(t)) == t[..Width(t)];
    }
  }

  /** A closed string is as long with anything behind it. */
  lemma {:induction false} ClosedStringIsStable(t: string, escaped: bool, u: string)
    requires Closes(t, escaped)
    ensures InString(t[..InString(t, escaped)] + u, escaped) == InString(t, escaped)
    decreases |t|
  {
    var n, e := InString(t, escaped), !escaped && t[0] == '\\';
    if !(!escaped && t[0] == '"') {
      ClosedStringIsStable(t[1..], e, u);
      assert (t[..n] + u)[1..] == t[1..][..n - 1] + u;
    }
  }

  /** The string that starts here has a closing quote. */
  predicate Closes(t: string, escaped: bool)
    decreases |t|
  {
    t != [] && ((!escaped && t[0] == '"') || Closes(t[1..], !escaped && t[0] == '\\'))
  }

  lemma {:induction false} OpenStringIsLast(t: string, escaped: bool)
    requires !Closes(t, escaped)
    ensures InString(t, escaped) == |t|
    decreases |t|
  {
    if t != [] {
      OpenStringIsLast(t[1..], !escaped && t[0] == '\\');
    }
  }

  /** A text that does not start with a slash keeps its first character. */
  lemma FirstCharacterStays(t: string)
    requires t != [] && t[0] != '/'
    ensures Stripped(t) != [] && Stripped(t)[0] == t[0]
  {
    assert Lex(t)[0] == Front(t);
    assert Stripped(t) == Kept(Front(t)) + KeptOf(Lex(t)[1..]);
  }

  /** What the first token leaves behind is read back as that token, comments aside. */
  lemma FrontIsReadBack(t: string)
    requires t != []
    ensures var out := Kept(Front(t)) + Stripped(t[Width(t)..]);
            Front(out) == Simplified(Front(t)) && out[Width(out)..] == Stripped(t[Width(t)..])
  {
    var w := Width(t);
    var u := Stripped(t[w..]);
    var out := Kept(Front(t)) + u;
    if t[0] == '"' {
      if !Closes(t[1..], false) {
        OpenStringIsLast(t[1..], false);
      }
      LiteralIsReadBack(t, u);
    } else if t[0] == '/' && !OpensBlock(t) && !OpensLine(t) {
      if t[1..] != [] {
        FirstCharacterStays(t[1..]);
      }
    }
  }

  lemma LiteralIsReadBack(t: string, u: string)
    requires t != [] && t[0] == '"' && (!Closes(t[1..], false) ==> u == [])
    ensures var out := t[..Width(t)] + u;
            Width(out) == Width(t) && out[..Width(t)] == t[..Width(t)] && out[Width(t)..] == u
  {
    var w := Width(t);
    var out := t[..w] + u;
    assert out[1..] == t[1..][..w - 1] + u;
    if Closes(t[1..], false) {
      ClosedStringIsStable(t[1..], false, u);
    } else {
      OpenStringIsLast(t[1..], false);
      assert out == t;
    }
  }

  /**
  Stripping preserves meaning: reading the cleaned text gives the tokens of the
  original in order, every string literal verbatim and every comment replaced by
  a single blank or line break.
  */
  lemma {:induction false} StrippedTokens(t: string)
    ensures Lex(Stripped(t)) == SimplifiedAll(Lex(t))
    decreases |t|
  {
    if t != [] {
      var rest := t[Width(t)..];
      StrippedTokens(rest);
      FrontIsReadBack(t);
      LexCons(t);
      LexCons(Kept(Front(t)) + Stripped(rest));
    }
  }

  lemma LexCons(t: string)
    requires t != []
    ensures Lex(t) == [Front(t)] + Lex(t[Width(t)..])
    ensures Stripped(t) == Kept(Front(t)) + Stripped(t[Width(t)..])
    ensures SimplifiedAll(Lex(t)) == [Simplified(Front(t))] + SimplifiedAll(Lex(t[Width(t)..]))
  {
    assert Lex(t)[1..] == Lex(t[Width(t)..]);
  }

  predicate HasComment(ks: seq<Token>) { exists k :: k in ks && (k.Line? || k.Block?) }

  lemma {:induction false} KeptIsSource(ks: seq<Token>)
    requires !HasComment(ks)
    ensures KeptOf(ks) == SourceOf(ks)
  {
    if ks != [] {
      assert ks[0] in ks;
      forall k | k in ks[1..] ensures !(k.Line? || k.Block?) { assert k in ks; }
      KeptIsSource(ks[1..]);
    }
  }

  /** Stripping leaves no comment outside a string, and so stripping twice is stripping once. */
  lemma StrippingIsFinal(t: string)
    ensures !HasComment(Lex(Stripped(t))) && Stripped(Stripped(t)) == Stripped(t)
  {
    StrippedTokens(t);
    KeptIsSource(Lex(Stripped(t)));
    LexIsFaithful(Stripped(t));
  }

  /** Stripping leaves a text as it is exactly when it holds no comment outside its strings. */
  lemma {:induction false} IdentityIffNoComment(t: string)
    ensures Stripped(t) == t <==> !HasComment(Lex(t))
  {
    StrippingIsFinal(t);
    if !HasComment(Lex(t)) {
      KeptIsSource(Lex(t));
      LexIsFaithful(t);
    }
  }

  // ----- The tokens, spelled out -----

  /** What may stand between the quotes: plain characters, and a backslash with any character behind it. */
  predicate Quotable(b: string)
    decreases |b|
  {
    || b == []
    || (b[0] == '\\' && |b| > 1 && Quotable(b[2..]))
    || (b[0] != '\\' && b[0] != '"' && Quotable(b[1..]))
  }

  /** A literal without its closing quote; a single backslash may be the last thing in it. */
  predicate OpenLiteral(s: string) {
    && s != [] && s[0] == '"'
    && (Quotable(s[1..]) || (|s| > 1 && s[|s| - 1] == '\\' && Quotable(s[1..|s| - 1])))
  }

  predicate ClosedLiteral(s: string) { |s| > 1 && s[0] == s[|s| - 1] == '"' && Quotable(s[1..|s| - 1]) }

  /** The two characters that close a block comment stand at `i`, behind those that open it. */
  predicate ClosesAt(s: string, i: nat) { 2 <= i && i + 1 < |s| && s[i] == '*' && s[i + 1] == '/' }

  ghost predicate OpenBlock(s: string) { OpensBlock(s) && forall i: nat :: !ClosesAt(s, i) }

  ghost predicate ClosedBlock(s: string) {
    |s| > 3 && OpensBlock(s) && forall i: nat :: ClosesAt(s, i) <==> i == |s| - 2
  }

  ghost predicate OpenLine(s: string) { OpensLine(s) && '\n' !in s }

  ghost predicate ClosedLine(s: string) { OpensLine(s) && s[|s| - 1] == '\n' && '\n' !in s[..|s| - 1] }

  /** What a token looks like; only the last one of a text may be left open. */
  ghost predicate Proper(k: Token, last: bool) {
    match k
    case Text(c) => c != '"'
    case Literal(s) => ClosedLiteral(s) || (last && OpenLiteral(s))
    case Line(s) => ClosedLine(s) || (last && OpenLine(s))
    case Block(s) => ClosedBlock(s) || (last && OpenBlock(s))
  }

  /** Tokens that can stand in this order; a slash that is text does not open a comment with what follows. */
  ghost predicate Readable(ks: seq<Token>) {
    ks != [] ==>
      && Proper(ks[0], |ks| == 1)
      && (ks[0] == Text('/') && |ks| > 1 ==> ks[1].Literal? || (ks[1].Text? && ks[1].c != '/' && ks[1].c != '*'))
      && Readable(ks[1..])
  }

  lemma {:induction false} QuotedReads(b: string, u: string)
    requires Quotable(b)
    ensures InString(b + u, false) == |b| + InString(u, false)
    decreases |b|
  {
    if b == [] {
      assert b + u == u;
    } else if b[0] == '\\' {
      assert (b + u)[1..] == b[1..] + u && (b[1..] + u)[1..] == b[2..] + u;
      QuotedReads(b[2..], u);
    } else {
      assert (b + u)[1..] == b[1..] + u;
      QuotedReads(b[1..], u);
    }
  }

  lemma LiteralReads(s: string, rest: string)
    requires ClosedLiteral(s) || (rest == [] && OpenLiteral(s))
    ensures Width(s + rest) == |s|
  {
    var t := s + rest;
    if ClosedLiteral(s) {
      var b, u := s[1..|s| - 1], "\"" + rest;
      assert t[1..] == b + u;
      QuotedReads(b, u);
    } else {
      assert t == s;
      if Quotable(s[1..]) {
        assert s[1..] + [] == s[1..];
        QuotedReads(s[1..], []);
      } else {
        assert s[1..] == s[1..|s| - 1] + "\\";
        QuotedReads(s[1..|s| - 1], "\\");
        assert "\\"[1..] == [];
      }
    }
  }

  /** The character at `i`, with the one before it, closes a block comment. */
  predicate ClosesWith(t: string, last: char, i: nat)
    requires i < |t|
  {
    t[i] == '/' && (if i == 0 then last else t[i - 1]) == '*'
  }

  /** The end of a block comment is the first place where it is closed, or the end of the text. */
  lemma {:induction false} BlockEndIsExact(t: string, last: char)
    ensures var n := ToBlockEnd(t, last);
            && (forall i :: 0 <= i < n - 1 ==> !ClosesWith(t, last, i))
            && (n == |t| || (n > 0 && ClosesWith(t, last, n - 1)))
  {
    if t != [] && !(last == '*' && t[0] == '/') {
      BlockEndIsExact(t[1..], t[0]);
      var n := ToBlockEnd(t, last);
      assert forall i :: 0 < i < |t| ==> ClosesWith(t, last, i) == ClosesWith(t[1..], t[0], i - 1);
    }
  }

  lemma {:induction false} LineEndIsExact(t: string)
    ensures var n := ToLineEnd(t);
            (forall i :: 0 <= i < n - 1 ==> t[i] != '\n') && (n == |t| || (n > 0 && t[n - 1] == '\n'))
  {
    if t != [] && t[0] != '\n' {
      LineEndIsExact(t[1..]);
    }
  }

  lemma BlockReads(s: string, rest: string)
    requires ClosedBlock(s) || (rest == [] && OpenBlock(s))
    ensures Width(s + rest) == |s|
  {
    var t := s + rest;
    var n := ToBlockEnd(t[2..], '\0');
    BlockEndIsExact(t[2..], '\0');
    assert forall i :: 2 <= i < |s| ==> t[2..][i - 2] == s[i];
    if ClosedBlock(s) {
      var end: nat := |s| - 3;
      assert ClosesAt(s, |s| - 2) && ClosesWith(t[2..], '\0', end);
      assert ClosesAt(s, n) ==> n == end + 1;
    } else {
      assert t == s && !ClosesAt(s, n);
    }
  }

  lemma LineReads(s: string, rest: string)
    requires ClosedLine(s) || (rest == [] && OpenLine(s))
    ensures Width(s + rest) == |s|
  {
    var t := s + rest;
    var n := ToLineEnd(t[1..]);
    LineEndIsExact(t[1..]);
    assert forall i :: 1 <= i < |s| ==> t[1..][i - 1] == s[i];
    if ClosedLine(s) {
      assert t[1..][|s| - 2] == '\n';
      assert forall i :: 0 <= i < |s| - 1 ==> s[i] in s[..|s| - 1];
    } else {
      assert t == s && forall i :: 0 <= i < |s| ==> s[i] in s;
    }
  }

  /** A token in front of a text is read as that token. */
  lemma FrontReads(k: Token, rest: string)
    requires Proper(k, rest == [])
    requires k == Text('/') && rest != [] ==> rest[0] != '/' && rest[0] != '*'
    ensures var t := Source(k) + rest;
            t != [] && Front(t) == k && Width(t) == |Source(k)| && t[Width(t)..] == rest
  {
    assert (Source(k) + rest)[..|Source(k)|] == Source(k);
    match k
    case Text(c) =>
    case Literal(s) => LiteralReads(s, rest);
    case Line(s) => LineReads(s, rest);
    case Block(s) => BlockReads(s, rest);
  }

  lemma SourceStarts(ks: seq<Token>)
    requires ks != [] && Readable(ks)
    ensures SourceOf(ks) != []
    ensures SourceOf(ks)[0] == match ks[0] case Text(c) => c case Literal(_) => '"' case _ => '/'
  {
    assert Source(ks[0]) != [];
    assert SourceOf(ks)[0] == Source(ks[0])[0];
  }

  lemma OneTokenReads(k: Token, rest: string)
    requires Proper(k, rest == [])
    requires k == Text('/') && rest != [] ==> rest[0] != '/' && rest[0] != '*'
    ensures Lex(Source(k) + rest) == [k] + Lex(rest)
  {
    FrontReads(k, rest);
  }

  /** Every list of tokens, written out, is read as that list. */
  lemma {:induction false} TokensReadBack(ks: seq<Token>)
    requires Readable(ks)
    ensures Lex(SourceOf(ks)) == ks
    decreases |ks|
  {
    if ks != [] {
      var rest := SourceOf(ks[1..]);
      TokensReadBack(ks[1..]);
      if |ks| > 1 {
        SourceStarts(ks[1..]);
      }
      OneTokenReads(ks[0], rest);
      assert ks == [ks[0]] + ks[1..];
    }
  }

  lemma {:induction false} StringSplits(t: string)
    ensures var n := InString(t, false);
            || (n > 0 && t[n - 1] == '"' && Quotable(t[..n - 1]))
            || (n == |t| && (Quotable(t) || (n > 0 && t[n - 1] == '\\' && Quotable(t[..n - 1]))))
    decreases |t|
  {
    if t != [] && t[0] != '"' {
      var n := InString(t, false);
      if t[0] != '\\' {
        StringSplits(t[1..]);
        assert n > 1 ==> t[..n - 1][1..] == t[1..][..n - 2];
      } else if |t| > 1 {
        StringSplits(t[2..]);
        assert t[1..][1..] == t[2..];
        assert n > 2 ==> t[..n - 1][2..] == t[2..][..n - 3];
      }
    }
  }

  lemma LiteralIsProper(t: string)
    requires t != [] && t[0] == '"'
    ensures ClosedLiteral(t[..Width(t)]) || (Width(t) == |t| && OpenLiteral(t[..Width(t)]))
  {
    var w := Width(t);
    StringSplits(t[1..]);
    assert w == |t| ==> t[..w] == t;
    if w > 1 {
      assert t[..w][1..w - 1] == t[1..][..w - 2] && t[..w][w - 1] == t[1..][w - 2];
    }
  }

  lemma FrontIsProper(t: string)
    requires t != []
    ensures Proper(Front(t), Width(t) == |t|)
  {
    var w := Width(t);
    var s := t[..w];
    if t[0] == '"' {
      LiteralIsProper(t);
    } else if OpensBlock(t) {
      BlockEndIsExact(t[2..], '\0');
      assert forall i :: 2 <= i < w ==> s[i] == t[2..][i - 2];
      assert forall i: nat :: ClosesAt(s, i) ==> ClosesWith(t[2..], '\0', i - 1);
    } else if OpensLine(t) {
      LineEndIsExact(t[1..]);
      assert forall i :: 1 <= i < w ==> s[i] == t[1..][i - 1];
    }
  }

  /** Every text is read as tokens that look as they should. */
  lemma {:induction false} LexIsReadable(t: string)
    ensures Readable(Lex(t))
    decreases |t|
  {
    if t != [] {
      var rest := t[Width(t)..];
      FrontIsProper(t);
      LexIsReadable(rest);
      assert Lex(t)[1..] == Lex(rest);
      assert rest == [] <==> |Lex(t)| == 1;
    }
  }

  /**
  What the loop computes, without reference to how a text is read: whatever
  tokens a text is written from, stripping leaves each literal and each other
  character as it is, one blank for a block comment and one line break for a line
  comment; and every text is written from tokens in exactly one way.
  */
  lemma StrippingIsExact(ks: seq<Token>, t: string)
    requires Readable(ks)
    ensures Stripped(SourceOf(ks)) == KeptOf(ks)
    ensures SourceOf(ks) == t <==> ks == Lex(t)
  {
    TokensReadBack(ks);
    LexIsFaithful(t);
  }
}
