/**
 The route-tenancy guard: its own scanner, which blanks the contents of strings, comments and regular expressions
 and then counts every brace, and the verify-then-use rule it applies to the clauses of a handler.
 */
module RouteTenancy {
  import opened Common
  import opened SourceScan

  function Min(a: nat, b: nat): nat {
    if a <= b then a else b
  }

  // ---- blank ----

  /** The last character that is not white space among the 40 before `i`. */
  function Previous(src: string, i: nat): Option<char>
    requires i <= |src|
  {
    var before := TrimEnd(src[if i >= 40 then i - 40 else 0..i]);
    if before == "" then None else Some(before[|before| - 1])
  }

  /** The slash at `i` begins a regular expression rather than a division. */
  predicate RegexStarts(src: string, i: nat)
    requires i < |src|
  {
    src[i] == '/' && var p := Previous(src, i);
    p.Some? && (p.value == '(' || p.value == ',' || p.value == '=' || p.value == ':' || p.value == '[' || p.value == '!'
                || p.value == '&' || p.value == '|' || p.value == '?' || p.value == '{' || p.value == ';'
                || p.value == '+')
  }

  /** Where a regular expression entered at `j` stops: its closing slash, a newline, or the end. */
  function RegexEnd(src: string, j: nat, inClass: bool): (r: nat)
    ensures r >= j
    decreases |src| - j
  {
    if j >= |src| then j
    else if src[j] == '\\' then RegexEnd(src, j + 2, inClass)
    else if src[j] == '[' then RegexEnd(src, j + 1, true)
    else if src[j] == ']' then RegexEnd(src, j + 1, false)
    else if (src[j] == '/' && !inClass) || src[j] == '\n' then j
    else RegexEnd(src, j + 1, inClass)
  }

  /** Where the next turn of the loop begins. */
  function Next(src: string, i: nat): (j: nat)
    requires i < |src|
    ensures i < j <= |src|
  {
    var n := |src|;
    if Quote(src[i]) then Min(ClosingQuote(src, i + 1, src[i]) + 1, n)
    else if LineOpener(src[i..]) || BlockOpener(src[i..]) then i + CommentLength(src[i..])
    else if RegexStarts(src, i) then Min(RegexEnd(src, i + 1, false) + 1, n)
    else i + 1
  }

  /** What one turn writes over the characters it passes. */
  function Written(src: string, i: nat): (r: string)
    requires i < |src|
    ensures |r| == Next(src, i) - i
  {
    var n := |src|;
    if Quote(src[i]) then
      var j := ClosingQuote(src, i + 1, src[i]);
      [src[i]] + Spaces(Min(j, n) - (i + 1)) + if j < n then [src[j]] else ""
    else if LineOpener(src[i..]) || BlockOpener(src[i..]) || RegexStarts(src, i) then Spaces(Next(src, i) - i)
    else [src[i]]
  }

  function BlankFrom(src: string, i: nat): (r: string)
    requires i <= |src|
    ensures |r| == |src| - i
    decreases |src| - i
  {
    if i == |src| then "" else Written(src, i) + BlankFrom(src, Next(src, i))
  }

  lemma WrittenKeepsOrBlanks(src: string, i: nat, k: nat)
    requires i < |src| && k < Next(src, i) - i
    ensures Written(src, i)[k] == src[i + k] || Written(src, i)[k] == ' '
  {
  }

  /** Blanking keeps every offset: a character stays or becomes a space. */
  lemma {:induction false} BlankKeepsOrBlanks(src: string, i: nat, k: nat)
    requires i <= |src| && k < |src| - i
    ensures BlankFrom(src, i)[k] == src[i + k] || BlankFrom(src, i)[k] == ' '
    decreases |src| - i
  {
    hide Next, Written;
    var next, written := Next(src, i), Written(src, i);
    var rest := BlankFrom(src, next);
    assert BlankFrom(src, i) == written + rest;
    if k < |written| {
      WrittenKeepsOrBlanks(src, i, k);
    } else {
      BlankKeepsOrBlanks(src, next, k - |written|);
    }
  }

  method Blank(src: string) returns (out: string)
    ensures out == BlankFrom(src, 0)
  {
    var chars := Split(src);
    var i := 0;
    assert chars[0..] == src[0..] == src && "" + BlankFrom(src, 0) == BlankFrom(src, 0);
    while i < |src|
      invariant i <= |src| == chars.Length && chars[i..] == src[i..]
      invariant chars[..i] + BlankFrom(src, i) == BlankFrom(src, 0)
    {
      ghost var written, next := Written(src, i), Next(src, i);
      Regroup(chars[..i], written, BlankFrom(src, next));
      i := BlankTurn(chars, i, src, written);
    }
    assert chars[..i] == chars[..] && chars[..i] + "" == chars[..i];
    out := chars[..];
  }

  lemma CommentTurn(src: string, i: nat)
    requires i < |src| && !Quote(src[i]) && (LineOpener(src[i..]) || BlockOpener(src[i..]))
    ensures Written(src, i) == MaskToken(src[i..]) && Next(src, i) == i + |MaskToken(src[i..])|
  {
    hide RegexStarts, RegexEnd, ClosingQuote, CommentLength, LineOpener, BlockOpener;
  }

  lemma RegexTurn(src: string, i: nat)
    requires i < |src| && !Quote(src[i]) && !LineOpener(src[i..]) && !BlockOpener(src[i..]) && RegexStarts(src, i)
    ensures Next(src, i) == Min(RegexEnd(src, i + 1, false) + 1, |src|)
    ensures Written(src, i) == Spaces(Next(src, i) - i)
  {
    hide RegexStarts, RegexEnd, ClosingQuote;
  }

  lemma PlainTurn(src: string, i: nat)
    requires i < |src| && !Quote(src[i]) && !LineOpener(src[i..]) && !BlockOpener(src[i..]) && !RegexStarts(src, i)
    ensures Next(src, i) == i + 1 && Written(src, i) == [src[i]]
  {
    hide RegexStarts, RegexEnd, ClosingQuote;
  }

  method BlankTurn(chars: array<char>, i: nat, src: string, ghost written: string) returns (next: nat)
    requires i < chars.Length == |src| && chars[i..] == src[i..] && written == Written(src, i)
    modifies chars
    ensures next == Next(src, i) && chars[next..] == src[next..]
    ensures chars[..next] == old(chars[..i]) + written
  {
    hide Next, Written, RegexStarts, MaskToken;
    var n := |src|;
    var c := src[i];
    if Quote(c) {
      next := BlankString(chars, i, src);
    } else if LineOpener(src[i..]) || BlockOpener(src[i..]) {
      next := BlankComment(chars, i, src);
    } else if RegexStarts(src, i) {
      RegexTurn(src, i);
      var j := SkipRegex(src, i + 1);
      next := BlankRange(chars, i, Min(j + 1, n), src);
    } else {
      PlainTurn(src, i);
      assert chars[i..][1..] == chars[i + 1..] && src[i..][1..] == src[i + 1..];
      assert chars[..i + 1] == chars[..i] + [c];
      next := i + 1;
    }
  }

  method BlankComment(chars: array<char>, i: nat, src: string) returns (next: nat)
    requires i < chars.Length == |src| && chars[i..] == src[i..] && !Quote(src[i])
    requires LineOpener(src[i..]) || BlockOpener(src[i..])
    modifies chars
    ensures next == Next(src, i) && chars[next..] == src[next..]
    ensures chars[..next] == old(chars[..i]) + Written(src, i)
  {
    hide Next, Written, MaskToken, IndexOf;
    CommentTurn(src, i);
    var j;
    if src[i + 1] == '/' {
      LineToken(src, i);
      j := IndexOf(src, "\n", i);
      if j == -1 { j := |src|; }
    } else {
      BlockToken(src, i);
      j := IndexOf(src, "*/", i);
      j := if j == -1 then |src| else j + 2;
    }
    next := BlankRange(chars, i, j, src);
  }

  /** The literal keeps its quotes and loses what is between them. */
  method BlankString(chars: array<char>, i: nat, src: string) returns (next: nat)
    requires i < chars.Length == |src| && chars[i..] == src[i..] && Quote(src[i])
    modifies chars
    ensures next == Next(src, i) && chars[next..] == src[next..]
    ensures chars[..next] == old(chars[..i]) + Written(src, i)
  {
    hide ClosingQuote;
    var n, c := |src|, src[i];
    var j := SkipString(src, i + 1, c);
    assert chars[i..][1..] == chars[i + 1..] && src[i..][1..] == src[i + 1..];
    assert chars[..i + 1] == chars[..i] + [c];
    next := BlankRange(chars, i + 1, Min(j, n), src);
    if j < n {
      assert chars[j..][1..] == chars[j + 1..] && src[j..][1..] == src[j + 1..];
      assert chars[..j + 1] == chars[..j] + [src[j]];
      next := j + 1;
    }
  }

  method SkipString(src: string, from: nat, c: char) returns (j: nat)
    ensures j == ClosingQuote(src, from, c)
  {
    j := from;
    while j < |src| && src[j] != c
      invariant ClosingQuote(src, j, c) == ClosingQuote(src, from, c)
      decreases |src| - j
    {
      if src[j] == '\\' { j := j + 1; }
      j := j + 1;
    }
  }

  method SkipRegex(src: string, from: nat) returns (j: nat)
    ensures j == RegexEnd(src, from, false)
  {
    j := from;
    var inClass := false;
    while j < |src|
      invariant RegexEnd(src, j, inClass) == RegexEnd(src, from, false)
      decreases |src| - j
    {
      if src[j] == '\\' {
        j := j + 2;
        continue;
      }
      if src[j] == '[' {
        inClass := true;
      } else if src[j] == ']' {
        inClass := false;
      } else if src[j] == '/' && !inClass {
        break;
      } else if src[j] == '\n' {
        break;
      }
      j := j + 1;
    }
  }

  // ---- matchBrace, counting every brace ----

  function CountFrom(s: string, j: nat, depth: int): int
    decreases |s| - j
  {
    if j >= |s| then |s| - 1
    else if s[j] == '{' then CountFrom(s, j + 1, depth + 1)
    else if s[j] == '}' then if depth == 1 then j else CountFrom(s, j + 1, depth - 1)
    else CountFrom(s, j + 1, depth)
  }

  method MatchAnyBrace(s: string, open: nat) returns (close: int)
    ensures close == CountFrom(s, open, 0)
  {
    var depth := 0;
    var j := open;
    while j < |s|
      invariant CountFrom(s, j, depth) == CountFrom(s, open, 0)
    {
      if s[j] == '{' {
        depth := depth + 1;
      } else if s[j] == '}' {
        depth := depth - 1;
        if depth == 0 { return j; }
      }
      j := j + 1;
    }
    close := |s| - 1;
  }

  // ---- The two scanners agree ----

  /** The text between slash-star and star-slash, read with the rule that `/` right after the opener closes it. */
  predicate CommentText(text: string) {
    && (text != "" ==> text[0] != '/')
    && forall k :: 0 <= k < |text| - 1 ==> !(text[k] == '*' && text[k + 1] == '/')
  }

  predicate OneLine(text: string) {
    forall k :: 0 <= k < |text| ==> text[k] != '\n'
  }

  /** Text free of braces, quotes and slashes: blank may take a slash for a regular expression. */
  predicate PlainText(text: string) {
    Unbraced(text) && '/' !in text
  }

  /** Code as blank reads it: plain text, well-escaped strings, and comments with any braces and quotes in them. */
  predicate Scannable(code: Code) {
    match code
    case End => true
    case Text(text, rest) => PlainText(text) && Scannable(rest)
    case Str(q, body, rest) => WellEscaped(q, body) && Scannable(rest)
    case Block(inner, rest) => Scannable(inner) && Scannable(rest)
    case LineComment(text, rest) => OneLine(text) && Scannable(rest)
    case BlockComment(text, rest) => CommentText(text) && Scannable(rest)
  }

  /** No string literal ends inside a comment, as blankComments reads it. */
  predicate StringsClose(code: Code) {
    match code
    case End => true
    case Str(_, _, rest) => !StaysOpen(PrintHead(code)) && StringsClose(rest)
    case Block(inner, rest) => StringsClose(inner) && StringsClose(rest)
    case _ => StringsClose(code.rest)
  }

  /** Code as both scanners read it. */
  predicate Readable(code: Code) {
    Scannable(code) && StringsClose(code)
  }

  /** The body of a literal after blankComments, and its closing quote. */
  function MaskedBody(q: char, body: seq<Piece>): string {
    Masked(PrintPieces(body) + [q])
  }

  /** What blankComments makes of code: comments become text, in strings too. */
  function WithoutComments(code: Code): Code {
    match code
    case End => End
    case Text(text, rest) => Text(text, WithoutComments(rest))
    case Str(q, body, rest) => Str(q, PiecesOf(MaskedBody(q, body)[..|PrintPieces(body)|]), WithoutComments(rest))
    case Block(inner, rest) => Block(WithoutComments(inner), WithoutComments(rest))
    case LineComment(text, rest) => Text(Spaces(|text| + 2) + "\n", WithoutComments(rest))
    case BlockComment(text, rest) => Text(Spaces(|text| + 4), WithoutComments(rest))
  }

  /** What blank makes of code: string bodies too become text. */
  function WithoutStrings(code: Code): Code {
    match code
    case End => End
    case Text(text, rest) => Text(text, WithoutStrings(rest))
    case Str(q, body, rest) => Text([q] + Spaces(|PrintPieces(body)|) + [q], WithoutStrings(rest))
    case Block(inner, rest) => Block(WithoutStrings(inner), WithoutStrings(rest))
    case LineComment(text, rest) => Text(Spaces(|text| + 2) + "\n", WithoutStrings(rest))
    case BlockComment(text, rest) => Text(Spaces(|text| + 4), WithoutStrings(rest))
  }

  // ---- What blankComments makes of a literal ----

  function PiecesOf(text: string): seq<Piece> {
    if text == "" then []
    else if text[0] == '\\' && |text| >= 2 then [Escaped(text[1])] + PiecesOf(text[2..])
    else [Plain(text[0])] + PiecesOf(text[1..])
  }

  /**
   Reading the text of a literal, its first character escaped or not, meets no closing quote.  A `loose` text may end
   in the middle of an escape.
   */
  predicate Inside(q: char, text: string, escaped: bool, loose: bool) {
    if text == "" then !escaped || loose
    else if escaped then Inside(q, text[1..], false, loose)
    else text[0] != q && Inside(q, text[1..], text[0] == '\\', loose)
  }

  lemma {:induction false} BodyIsInside(q: char, body: seq<Piece>)
    requires WellEscaped(q, body)
    ensures Inside(q, PrintPieces(body), false, false)
    decreases |body|
  {
    if body == [] {
    } else {
      BodyIsInside(q, body[1..]);
      var text, rest := PrintPieces(body), PrintPieces(body[1..]);
      assert q != '\\';
      match body[0]
      case Plain(_) => assert text[1..] == rest;
      case Escaped(_) => assert text[1..][1..] == rest;
    }
  }

  lemma {:induction false} InsideIsABody(q: char, text: string)
    requires Quote(q) && Inside(q, text, false, false)
    ensures WellEscaped(q, PiecesOf(text)) && PrintPieces(PiecesOf(text)) == text
    decreases |text|
  {
    if text == "" {
    } else {
      if text[0] == '\\' && |text| >= 2 {
        assert text[1..][1..] == text[2..];
        InsideIsABody(q, text[2..]);
        assert text == [text[0], text[1]] + text[2..];
      } else {
        InsideIsABody(q, text[1..]);
        assert text == [text[0]] + text[1..];
      }
    }
  }

  lemma {:induction false} QuoteFreeIsInside(q: char, text: string, escaped: bool)
    requires q !in text
    ensures Inside(q, text, escaped, true)
    decreases |text|
  {
    if text == "" {
    } else {
      QuoteFreeIsInside(q, text[1..], if escaped then false else text[0] == '\\');
    }
  }

  lemma {:induction false} SpacesAreInside(q: char, n: nat, text: string, escaped: bool, loose: bool)
    requires Quote(q) && Inside(q, text, false, loose) && (escaped ==> n > 0)
    ensures Inside(q, Spaces(n) + text, escaped, loose)
    decreases n
  {
    if n == 0 {
      assert Spaces(0) + text == text;
    } else {
      assert (Spaces(n) + text)[1..] == Spaces(n - 1) + text;
      SpacesAreInside(q, n - 1, text, false, loose);
    }
  }

  /** What follows a comment in a literal is read as if the comment were not there. */
  lemma {:induction false} CutIsInside(q: char, text: string, escaped: bool, n: nat)
    requires Quote(q) && Inside(q, text, escaped, false) && 0 < n <= |text|
    requires text[n - 1] != '\\' || (n < |text| && text[n] == '\n')
    ensures Inside(q, text[n..], false, false)
    decreases n
  {
    var next := !escaped && text[0] == '\\';
    if n > 1 {
      assert text[1..][n - 2] == text[n - 1] && text[1..][n - 1..] == text[n..];
      CutIsInside(q, text[1..], next, n - 1);
    } else if next {
      assert text[1..][0] == '\n';
    }
  }

  /** The text of a comment that ends in a literal: it ends before the closing quote, and not in an escape. */
  lemma EndedComment(q: char, text: string)
    requires Quote(q) && (LineOpener(text + [q]) || BlockOpener(text + [q])) && !OpensForGood(text + [q])
    ensures var n := TokenLength(text + [q]);
            && 2 <= n <= |text| && MaskToken(text + [q]) == Spaces(n)
            && (text[n - 1] != '\\' || (n < |text| && text[n] == '\n'))
  {
    var s := text + [q];
    var n := TokenLength(s);
    EndedCommentIsShorter(s);
    if LineOpener(s) {
      assert s[n] == s[n..n + 1][0];
    } else {
      assert s[n - 1] == s[n - 2..n][1];
    }
  }

  lemma MaskUnfolds(s: string)
    requires s != ""
    ensures Masked(s) == MaskToken(s) + Masked(s[TokenLength(s)..])
  {
  }

  /**
   The closing quote is still the first one found, or, if a comment is open at it, none is found in the `n` characters
   after it either, provided they have none.
   */
  lemma {:induction false} MaskedStaysInside(q: char, text: string, rest: string, n: nat, escaped: bool)
    requires Quote(q) && Inside(q, text, escaped, false) && n <= |rest|
    requires StaysOpen(text + [q]) ==> q !in rest[..n]
    ensures var open := StaysOpen(text + [q]);
            var m := Masked(text + [q] + rest);
            Inside(q, m[..if open then |text| + 1 + n else |text|], escaped, open)
    decreases |text|
  {
    hide Masked, MaskToken, TokenLength, OpensForGood, Inside;
    var a := text + [q];
    var s := a + rest;
    var m, open := Masked(s), StaysOpen(a);
    var k := if open then |a| + n else |text|;
    if OpensForGood(a) {
      OpenLeavesNoQuote(q, a, rest, n);
      assert open;
      QuoteFreeIsInside(q, m[..k], escaped);
    } else if LineOpener(a) || BlockOpener(a) {
      MaskUnfolds(s);
      EndedComment(q, text);
      TokenEndsInPrefix(a, rest);
      var length := TokenLength(a);
      CutIsInside(q, text, escaped, length);
      assert a[length..] == text[length..] + [q] && s[length..] == text[length..] + [q] + rest;
      MaskedStaysInside(q, text[length..], rest, n, false);
      var tail := Masked(s[length..]);
      assert m[..k] == Spaces(length) + tail[..k - length];
      SpacesAreInside(q, length, tail[..k - length], escaped, open);
    } else {
      PlainTurnInside(q, text, rest, escaped);
      if text == "" {
        assert m[..0] == "";
      } else {
        MaskedStaysInside(q, text[1..], rest, n, !escaped && text[0] == '\\');
        var tail := Masked(text[1..] + [q] + rest);
        InsideHead(q, text[0], tail[..k - 1], escaped, open);
        assert m[..k] == [text[0]] + tail[..k - 1];
      }
    }
  }

  lemma OpenLeavesNoQuote(q: char, a: string, rest: string, n: nat)
    requires Quote(q) && OpensForGood(a) && n <= |rest| && q !in rest[..n]
    ensures q !in Masked(a + rest)[..|a| + n]
  {
    var s := a + rest;
    MaskUnfolds(s);
    OpenTokenGoesOn(a, rest);
    hide Masked, OpensForGood, TokenLength;
    forall k | 0 <= k < |a| + n
      ensures Masked(s)[k] != q
    {
      MaskedKeepsOrBlanks(s, k);
      if k < |a| {
        assert Masked(s)[k] == MaskToken(s)[k] == ' ';
      } else {
        assert s[k] == rest[..n][k - |a|];
      }
    }
  }

  lemma InsideHead(q: char, c: char, tail: string, escaped: bool, loose: bool)
    requires escaped || c != q
    ensures Inside(q, [c] + tail, escaped, loose) <==> Inside(q, tail, !escaped && c == '\\', loose)
  {
    assert ([c] + tail)[1..] == tail;
  }

  /** A character of a literal at which no comment opens. */
  lemma PlainTurnInside(q: char, text: string, rest: string, escaped: bool)
    requires Quote(q) && Inside(q, text, escaped, false) && !LineOpener(text + [q]) && !BlockOpener(text + [q])
    ensures text == "" ==> !StaysOpen(text + [q]) && Inside(q, "", escaped, false)
    ensures text != "" ==>
              && (escaped || text[0] != q)
              && Inside(q, text[1..], !escaped && text[0] == '\\', false)
              && Masked(text + [q] + rest) == [text[0]] + Masked(text[1..] + [q] + rest)
              && (StaysOpen(text + [q]) <==> StaysOpen(text[1..] + [q]))
  {
    var a := text + [q];
    if text != "" {
      assert a[1..] == text[1..] + [q] && (a + rest)[1..] == text[1..] + [q] + rest;
      PlainHeadStays(a + rest);
    } else {
      assert a[1..] == "";
    }
  }

  /** A literal in which no comment stays open is still a literal afterwards, and what follows it is read by itself. */
  lemma LiteralIsMasked(q: char, body: seq<Piece>, tail: string)
    requires WellEscaped(q, body) && !StaysOpen([q] + PrintPieces(body) + [q])
    ensures var masked := PiecesOf(MaskedBody(q, body)[..|PrintPieces(body)|]);
            && WellEscaped(q, masked) && |PrintPieces(masked)| == |PrintPieces(body)|
            && Masked([q] + PrintPieces(body) + [q] + tail) == [q] + PrintPieces(masked) + [q] + Masked(tail)
  {
    hide Masked, Inside, PiecesOf, PrintPieces, StaysOpen;
    var text := PrintPieces(body);
    var a := text + [q];
    LiteralOpens(q, text);
    BodyIsInside(q, body);
    MaskedStaysInside(q, text, "", 0, false);
    assert a + "" == a;
    var m := Masked(a);
    InsideIsABody(q, m[..|text|]);
    LostExactlyIfOpen(a, "");
    assert m == m[..|text|] + [q];
    var literal := [q] + text + [q];
    assert literal == [q] + a && literal[1..] == a;
    PlainHeadStays(literal);
    MaskingSplits(literal, tail);
  }

  lemma LiteralOpens(q: char, text: string)
    requires Quote(q)
    ensures StaysOpen([q] + text + [q]) <==> StaysOpen(text + [q])
    ensures !LineOpener([q] + text + [q]) && !BlockOpener([q] + text + [q])
  {
    assert ([q] + text + [q])[1..] == text + [q];
  }

  /**
   The closing quote of a literal is lost, whatever follows, exactly if a comment that blankComments sees opening in
   the literal is still open there.
   */
  lemma QuoteIsLostExactlyIfOpen(q: char, body: seq<Piece>, tail: string)
    requires WellEscaped(q, body)
    ensures var literal := [q] + PrintPieces(body) + [q];
            Masked(literal + tail)[|literal| - 1] == (if StaysOpen(literal) then ' ' else q)
  {
    LostExactlyIfOpen([q] + PrintPieces(body) + [q], tail);
  }

  lemma {:induction false} WithoutCommentsIsCommentFree(code: Code)
    requires Readable(code)
    ensures CommentFree(WithoutComments(code)) && |Print(WithoutComments(code))| == |Print(code)|
    decreases code
  {
    hide PiecesOf, MaskedBody, PrintPieces, WellEscaped, StaysOpen;
    if code.End? {
    } else {
      WithoutCommentsIsCommentFree(code.rest);
      if code.Block? { WithoutCommentsIsCommentFree(code.inner); }
      if code.Str? { LiteralIsMasked(code.quote, code.body, ""); }
    }
  }

  lemma PlainHeadStays(s: string)
    requires s != "" && !LineOpener(s) && !BlockOpener(s)
    ensures Masked(s) == [s[0]] + Masked(s[1..])
  {
  }

  /** A text in which no comment opens, and that does not end with a slash, is left alone whatever follows it. */
  lemma {:induction false} PlainIsNotMasked(text: string, rest: string)
    requires NoOpener(text) && (text != "" ==> text[|text| - 1] != '/')
    ensures Masked(text + rest) == text + Masked(rest)
    decreases |text|
  {
    hide Masked;
    if text == "" {
      assert text + rest == rest;
    } else {
      assert (text + rest)[1..] == text[1..] + rest;
      PlainHeadStays(text + rest);
      PlainIsNotMasked(text[1..], rest);
      assert [text[0]] + (text[1..] + Masked(rest)) == text + Masked(rest);
    }
  }

  lemma LineCommentEnds(s: string, n: nat)
    requires 2 <= n < |s| && s[0] == s[1] == '/' && s[n] == '\n' && forall k :: 2 <= k < n ==> s[k] != '\n'
    ensures CommentLength(s) == n
  {
    assert s[n..n + 1] == "\n";
    IndexOfIsFirst(s, "\n", 0, n);
    var j := IndexOf(s, "\n", 0);
    assert s[j] == s[j..j + 1][0];
  }

  lemma BlockCommentEnds(s: string, n: nat)
    requires 4 <= n <= |s| && s[0] == '/' && s[1] == '*' && s[n - 2] == '*' && s[n - 1] == '/'
    requires forall k :: 1 <= k < n - 2 ==> !(s[k] == '*' && s[k + 1] == '/')
    ensures CommentLength(s) == n
  {
    assert s[n - 2..n] == "*/";
    IndexOfIsFirst(s, "*/", 0, n - 2);
    var j := IndexOf(s, "*/", 0);
    assert s[j] == s[j..j + 2][0] && s[j + 1] == s[j..j + 2][1];
  }

  lemma BlockCommentIsMasked(text: string, tail: string)
    requires CommentText(text)
    ensures Masked("/*" + text + "*/" + tail) == Spaces(|text| + 4) + Masked(tail)
  {
    var s, n := "/*" + text + "*/" + tail, |text| + 4;
    assert forall k :: 2 <= k < n - 2 ==> s[k] == text[k - 2];
    BlockCommentEnds(s, n);
    assert s[n..] == tail;
  }

  lemma {:induction false} CodeIsMasked(code: Code, rest: string)
    requires Readable(code)
    ensures Masked(Print(code) + rest) == Print(WithoutComments(code)) + Masked(rest)
    decreases code, 1
  {
    hide Masked;
    if code.End? {
      assert "" + rest == rest && "" + Masked(rest) == Masked(rest);
    } else {
      var tail := Print(code.rest) + rest;
      var head, masked := PrintHead(code), WithoutComments(code);
      Regroup(head, Print(code.rest), rest);
      HeadIsMasked(code, tail);
      CodeIsMasked(code.rest, rest);
      Regroup(PrintHead(masked), Print(masked.rest), Masked(rest));
    }
  }

  lemma LineHeadIsMasked(text: string, tail: string)
    requires OneLine(text)
    ensures Masked("//" + text + "\n" + tail) == Spaces(|text| + 2) + "\n" + Masked(tail)
  {
    var s, n := "//" + text + "\n" + tail, |text| + 2;
    assert forall k :: 2 <= k < n ==> s[k] == text[k - 2];
    LineCommentEnds(s, n);
    assert s[n..] == "\n" + tail;
    assert Masked(s) == Spaces(n) + Masked("\n" + tail);
    hide Masked;
    PlainIsNotMasked("\n", tail);
    Regroup(Spaces(|text| + 2), "\n", Masked(tail));
  }

  lemma BlockHeadIsMasked(inner: string, masked: string, tail: string)
    requires Masked(inner + ("}" + tail)) == masked + Masked("}" + tail)
    ensures Masked("{" + inner + "}" + tail) == "{" + masked + "}" + Masked(tail)
  {
    hide Masked;
    assert "{" + inner + "}" + tail == "{" + (inner + ("}" + tail));
    PlainIsNotMasked("{", inner + ("}" + tail));
    PlainIsNotMasked("}", tail);
    assert "{" + (masked + ("}" + Masked(tail))) == "{" + masked + "}" + Masked(tail);
  }

  lemma {:induction false} HeadIsMasked(code: Code, tail: string)
    requires Readable(code) && !code.End?
    ensures Masked(PrintHead(code) + tail) == PrintHead(WithoutComments(code)) + Masked(tail)
    decreases code, 0
  {
    hide Masked;
    match code
    case Text(text, _) =>
      assert NoOpener(text);
      PlainIsNotMasked(text, tail);
    case Str(q, body, _) =>
      LiteralIsMasked(q, body, tail);
    case Block(inner, _) =>
      CodeIsMasked(inner, "}" + tail);
      BlockHeadIsMasked(Print(inner), Print(WithoutComments(inner)), tail);
    case LineComment(text, _) =>
      LineHeadIsMasked(text, tail);
    case BlockComment(text, _) =>
      BlockCommentIsMasked(text, tail);
  }

  // ---- What blank makes of code ----

  /** Blanking goes from `i` to `k` and writes `written` there. */
  predicate Blanks(src: string, i: nat, k: nat, written: string) {
    i <= k <= |src| && BlankFrom(src, i) == written + BlankFrom(src, k)
  }

  lemma BlanksNothing(src: string, i: nat)
    requires i <= |src|
    ensures Blanks(src, i, i, "")
  {
  }

  lemma BlanksChain(src: string, i: nat, a: string, j: nat, b: string, k: nat)
    requires Blanks(src, i, j, a) && Blanks(src, j, k, b)
    ensures Blanks(src, i, k, a + b)
  {
    Regroup(a, b, BlankFrom(src, k));
  }

  lemma BlanksOnce(src: string, i: nat)
    requires i < |src|
    ensures Blanks(src, i, Next(src, i), Written(src, i))
  {
  }

  lemma PlainIsBlanked(src: string, i: nat, c: char)
    requires Holds(src, i, [c]) && !Quote(c) && c != '/'
    ensures Blanks(src, i, i + 1, [c])
  {
    assert src[i] == src[i..i + 1][0];
    BlanksOnce(src, i);
  }

  lemma {:induction false} TextIsBlanked(src: string, i: nat, text: string)
    requires PlainText(text) && Holds(src, i, text)
    ensures Blanks(src, i, i + |text|, text)
    decreases |text|
  {
    hide BlankFrom, Blanks;
    if text == "" {
      BlanksNothing(src, i);
    } else {
      assert text == [text[0]] + text[1..];
      HoldsParts(src, i, [text[0]], text[1..]);
      PlainIsBlanked(src, i, text[0]);
      TextIsBlanked(src, i + 1, text[1..]);
      BlanksChain(src, i, [text[0]], i + 1, text[1..], i + |text|);
    }
  }

  lemma StringTurn(src: string, i: nat, n: nat)
    requires i + n + 1 < |src| && Quote(src[i]) && ClosingQuote(src, i + 1, src[i]) == i + n + 1
    ensures Next(src, i) == i + n + 2 && Written(src, i) == [src[i]] + Spaces(n) + [src[i + n + 1]]
  {
    hide ClosingQuote;
  }

  lemma StringIsBlanked(src: string, i: nat, q: char, body: seq<Piece>)
    requires WellEscaped(q, body) && Holds(src, i, [q] + PrintPieces(body) + [q])
    ensures Blanks(src, i, i + |PrintPieces(body)| + 2, [q] + Spaces(|PrintPieces(body)|) + [q])
  {
    hide BlankFrom, Blanks, Next, Written, PrintPieces;
    var n := |PrintPieces(body)|;
    assert [q] + PrintPieces(body) + [q] == [q] + (PrintPieces(body) + [q]);
    HoldsParts(src, i, [q], PrintPieces(body) + [q]);
    assert src[i] == src[i..i + 1][0] == q;
    StringIsClosed(src, i + 1, q, body);
    HoldsParts(src, i + 1, PrintPieces(body), [q]);
    assert src[i + 1 + n] == src[i + 1 + n..i + 2 + n][0] == q;
    StringTurn(src, i, n);
    BlanksOnce(src, i);
  }

  /** The characters of a part that stands at `i`, seen from there on. */
  lemma HeldFrom(src: string, i: nat, part: string)
    requires Holds(src, i, part)
    ensures |src[i..]| >= |part| && forall k :: 0 <= k < |part| ==> src[i..][k] == part[k]
  {
    assert forall k :: 0 <= k < |part| ==> src[i..][k] == src[i..i + |part|][k];
  }

  lemma LineCommentIsBlanked(src: string, i: nat, text: string)
    requires OneLine(text) && Holds(src, i, "//" + text + "\n")
    ensures Blanks(src, i, i + |text| + 3, Spaces(|text| + 2) + "\n")
  {
    hide BlankFrom;
    var n := |text| + 2;
    HeldFrom(src, i, "//" + text + "\n");
    LineCommentEnds(src[i..], n);
    assert Written(src, i) == Spaces(n);
    BlanksOnce(src, i);
    HoldsParts(src, i, "//" + text, "\n");
    PlainIsBlanked(src, i + n, '\n');
    BlanksChain(src, i, Spaces(n), i + n, "\n", i + n + 1);
  }

  lemma BlockCommentIsBlanked(src: string, i: nat, text: string)
    requires CommentText(text) && Holds(src, i, "/*" + text + "*/")
    ensures Blanks(src, i, i + |text| + 4, Spaces(|text| + 4))
  {
    hide BlankFrom;
    var n := |text| + 4;
    HeldFrom(src, i, "/*" + text + "*/");
    BlockCommentEnds(src[i..], n);
    BlanksOnce(src, i);
  }

  lemma {:induction false} CodeIsBlanked(src: string, i: nat, code: Code)
    requires Scannable(code) && Holds(src, i, Print(code))
    ensures Blanks(src, i, i + |Print(code)|, Print(WithoutStrings(code)))
    decreases code, 1
  {
    hide BlankFrom;
    if code.End? {
      BlanksNothing(src, i);
    } else {
      var head, blanked := PrintHead(code), WithoutStrings(code);
      HoldsParts(src, i, head, Print(code.rest));
      HeadIsBlanked(src, i, code);
      CodeIsBlanked(src, i + |head|, code.rest);
      BlanksChain(src, i, PrintHead(blanked), i + |head|, Print(blanked.rest), i + |Print(code)|);
    }
  }

  lemma {:induction false} HeadIsBlanked(src: string, i: nat, code: Code)
    requires Scannable(code) && !code.End? && Holds(src, i, PrintHead(code))
    ensures Blanks(src, i, i + |PrintHead(code)|, PrintHead(WithoutStrings(code)))
    decreases code, 0
  {
    hide BlankFrom;
    match code
    case Text(text, _) => TextIsBlanked(src, i, text);
    case Str(q, body, _) => StringIsBlanked(src, i, q, body);
    case LineComment(text, _) => LineCommentIsBlanked(src, i, text);
    case BlockComment(text, _) => BlockCommentIsBlanked(src, i, text);
    case Block(inner, _) => BlockIsBlanked(src, i, inner);
  }

  lemma {:induction false} BlockIsBlanked(src: string, i: nat, inner: Code)
    requires Scannable(inner) && Holds(src, i, "{" + Print(inner) + "}")
    ensures Blanks(src, i, i + |Print(inner)| + 2, "{" + Print(WithoutStrings(inner)) + "}")
    decreases inner, 2
  {
    hide BlankFrom, Blanks, Print, WithoutStrings, Scannable;
    var close := i + 1 + |Print(inner)|;
    BlockParts(src, i, Print(inner));
    PlainIsBlanked(src, i, '{');
    CodeIsBlanked(src, i + 1, inner);
    PlainIsBlanked(src, close, '}');
    BlanksChain(src, i, "{", i + 1, Print(WithoutStrings(inner)), close);
    BlanksChain(src, i, "{" + Print(WithoutStrings(inner)), close, "}", close + 1);
  }

  lemma BlockParts(s: string, i: nat, inner: string)
    requires Holds(s, i, "{" + inner + "}")
    ensures Holds(s, i, "{") && Holds(s, i + 1, inner) && Holds(s, i + 1 + |inner|, "}")
    ensures s[i] == '{' && s[i + 1 + |inner|] == '}'
  {
    HoldsParts(s, i, "{" + inner, "}");
    HoldsParts(s, i, "{", inner);
    assert s[i] == s[i..i + 1][0] && s[i + 1 + |inner|] == s[i + 1 + |inner|..i + 2 + |inner|][0];
  }

  /** Text without braces, and blocks of it. */
  predicate BracesOnly(code: Code) {
    match code
    case End => true
    case Text(text, rest) => (forall k :: 0 <= k < |text| ==> text[k] != '{' && text[k] != '}') && BracesOnly(rest)
    case Block(inner, rest) => BracesOnly(inner) && BracesOnly(rest)
    case _ => false
  }

  lemma {:induction false} WithoutStringsIsBracesOnly(code: Code)
    requires Scannable(code)
    ensures BracesOnly(WithoutStrings(code)) && |Print(WithoutStrings(code))| == |Print(code)|
    decreases code
  {
    if code.End? {
    } else {
      WithoutStringsIsBracesOnly(code.rest);
      if code.Block? { WithoutStringsIsBracesOnly(code.inner); }
    }
  }

  lemma {:induction false} TextIsPassed(s: string, j: nat, text: string, depth: int)
    requires Holds(s, j, text) && forall k :: 0 <= k < |text| ==> text[k] != '{' && text[k] != '}'
    ensures CountFrom(s, j, depth) == CountFrom(s, j + |text|, depth)
    decreases |text|
  {
    if text == "" {
    } else {
      assert text == [text[0]] + text[1..];
      HoldsParts(s, j, [text[0]], text[1..]);
      assert s[j] == s[j..j + 1][0];
      TextIsPassed(s, j + 1, text[1..], depth);
    }
  }

  lemma {:induction false} CodeIsPassed(s: string, j: nat, code: Code, depth: nat)
    requires BracesOnly(code) && Holds(s, j, Print(code)) && depth >= 1
    ensures CountFrom(s, j, depth) == CountFrom(s, j + |Print(code)|, depth)
    decreases code, 0
  {
    if code.End? {
    } else {
      HoldsParts(s, j, PrintHead(code), Print(code.rest));
      if code.Text? {
        TextIsPassed(s, j, code.text, depth);
      } else {
        BlockIsPassed(s, j, code.inner, depth);
      }
      CodeIsPassed(s, j + |PrintHead(code)|, code.rest, depth);
    }
  }

  lemma {:induction false} BlockIsPassed(s: string, j: nat, inner: Code, depth: nat)
    requires BracesOnly(inner) && Holds(s, j, "{" + Print(inner) + "}")
    ensures CountFrom(s, j, depth)
         == if depth == 0 then j + |Print(inner)| + 1 else CountFrom(s, j + |Print(inner)| + 2, depth)
    decreases inner, 1
  {
    BlockParts(s, j, Print(inner));
    CodeIsPassed(s, j + 1, inner, depth + 1);
  }

  lemma HoldsBetween(before: string, part: string, after: string)
    ensures Holds(before + (part + after), |before|, part)
  {
  }

  lemma MaskedScan(before: Code, inner: Code, after: string)
    requires Readable(before) && Readable(inner)
    ensures BraceFrom(Masked(Print(before) + (PrintHead(Block(inner, End)) + after)), |Print(before)|, 0)
         == |Print(before)| + |Print(inner)| + 1
  {
    hide Masked;
    var block := Block(inner, End);
    BlockIsScannable(inner);
    CodeIsMasked(before, PrintHead(block) + after);
    HeadIsMasked(block, after);
    WithoutCommentsIsCommentFree(before);
    WithoutCommentsIsCommentFree(inner);
    var prefix, part := Print(WithoutComments(before)), PrintHead(WithoutComments(block));
    HoldsBetween(prefix, part, Masked(after));
    BlockIsSkipped(prefix + (part + Masked(after)), |prefix|, WithoutComments(inner), 0);
  }

  lemma BlanksHolds(src: string, i: nat, first: string, j: nat, second: string, k: nat)
    requires Blanks(src, i, j, first) && Blanks(src, j, k, second)
    ensures Holds(BlankFrom(src, i), |first|, second)
  {
    hide BlankFrom;
    HoldsBetween(first, second, BlankFrom(src, k));
  }

  lemma BlockIsScannable(inner: Code)
    requires Scannable(inner)
    ensures StringsClose(Block(inner, End)) <==> StringsClose(inner)
    ensures Scannable(Block(inner, End)) && PrintHead(Block(inner, End)) == "{" + Print(inner) + "}"
    ensures WithoutStrings(Block(inner, End)) == Block(WithoutStrings(inner), End)
    ensures PrintHead(Block(WithoutStrings(inner), End)) == "{" + Print(WithoutStrings(inner)) + "}"
  {
  }

  lemma HoldsFirst(first: string, rest: string)
    ensures Holds(first + rest, 0, first)
  {
  }

  lemma BlankedScan(before: Code, inner: Code, after: string)
    requires Scannable(before) && Scannable(inner)
    ensures CountFrom(BlankFrom(Print(before) + (PrintHead(Block(inner, End)) + after), 0), |Print(before)|, 0)
         == |Print(before)| + |Print(inner)| + 1
  {
    hide *;
    var block, open := Block(inner, End), |Print(before)|;
    var src := Print(before) + (PrintHead(block) + after);
    BlockIsScannable(inner);
    HoldsFirst(Print(before), PrintHead(block) + after);
    HoldsBetween(Print(before), PrintHead(block), after);
    CodeIsBlanked(src, 0, before);
    HeadIsBlanked(src, open, block);
    WithoutStringsIsBracesOnly(before);
    WithoutStringsIsBracesOnly(inner);
    var blanked := "{" + Print(WithoutStrings(inner)) + "}";
    BlanksHolds(src, 0, Print(WithoutStrings(before)), open, blanked, open + |PrintHead(block)|);
    BlockIsPassed(BlankFrom(src, 0), open, WithoutStrings(inner), 0);
  }

  /**
   The two scanners find the same end of a printed block, its last character, whatever braces and quotes the
   comments and strings in it and before it hold, and whatever follows it.
   */
  lemma ScannersAgree(before: Code, inner: Code, after: string)
    requires Readable(before) && Readable(inner)
    ensures var block := "{" + Print(inner) + "}";
            var src := Print(before) + block + after;
            var open := |Print(before)|;
            && BraceFrom(Masked(src), open, 0) == open + |block| - 1
            && CountFrom(BlankFrom(src, 0), open, 0) == open + |block| - 1
  {
    MaskedScan(before, inner, after);
    BlankedScan(before, inner, after);
    Regroup(Print(before), PrintHead(Block(inner, End)), after);
  }

  // ---- A literal that leaves a comment open ----

  /** No quote is found before `k`. */
  lemma {:induction false} NoQuoteIsFound(s: string, i: nat, k: nat, q: char, escaped: bool)
    requires i <= k <= |s| && Inside(q, s[i..k], escaped, true)
    ensures escaped ==> ClosingQuote(s, i + 1, q) >= k
    ensures !escaped ==> ClosingQuote(s, i, q) >= k
    decreases k - i
  {
    if i == k {
    } else {
      assert s[i..k][1..] == s[i + 1..k];
      NoQuoteIsFound(s, i + 1, k, q, !escaped && s[i] == '\\');
    }
  }

  lemma {:induction false} BraceIsNotBefore(s: string, i: nat, depth: int)
    ensures BraceFrom(s, i, depth) >= i || BraceFrom(s, i, depth) == |s| - 1
    decreases |s| - i
  {
    if i >= |s| {
    } else if Quote(s[i]) {
      BraceIsNotBefore(s, ClosingQuote(s, i + 1, s[i]) + 1, depth);
    } else {
      BraceIsNotBefore(s, i + 1, if s[i] == '{' then depth + 1 else if s[i] == '}' then depth - 1 else depth);
    }
  }

  /** For matchBrace the string that a literal leaves open goes on for the `n` characters after it. */
  lemma OpenLiteralGoesOn(s: string, i: nat, q: char, body: seq<Piece>, rest: string, n: nat, depth: int)
    requires WellEscaped(q, body) && StaysOpen([q] + PrintPieces(body) + [q]) && n <= |rest| && q !in rest[..n]
    requires i <= |s| && s[i..] == Masked([q] + PrintPieces(body) + [q] + rest)
    ensures i + |PrintPieces(body)| + 2 + n <= |s|
    ensures var close := ClosingQuote(s, i + 1, q);
            close >= i + |PrintPieces(body)| + 2 + n && BraceFrom(s, i, depth) == BraceFrom(s, close + 1, depth)
  {
    hide Masked, Inside, PrintPieces, StaysOpen;
    var text := PrintPieces(body);
    var src := [q] + text + [q] + rest;
    var m := Masked(text + [q] + rest);
    assert src == [q] + (text + [q] + rest) && src[1..] == text + [q] + rest;
    PlainHeadStays(src);
    assert s[i..] == [q] + m && s[i] == s[i..][0] == q && s[i + 1..] == s[i..][1..] == m;
    LiteralOpens(q, text);
    BodyIsInside(q, body);
    MaskedStaysInside(q, text, rest, n, false);
    var k := |text| + 1 + n;
    assert s[i + 1..i + 1 + k] == s[i + 1..][..k] == m[..k];
    NoQuoteIsFound(s, i + 1, i + 1 + k, q, false);
  }

  /** The code of one item alone. */
  function Alone(code: Code): Code
    requires !code.End?
  {
    match code
    case Text(text, _) => Text(text, End)
    case Str(q, body, _) => Str(q, body, End)
    case Block(inner, _) => Block(inner, End)
    case LineComment(text, _) => LineComment(text, End)
    case BlockComment(text, _) => BlockComment(text, End)
  }

  /**
   Some literal leaves a comment open, and its quote does not occur again after the first such literal, in the code or
   in the text `more` that follows it.
   */
  predicate EndsOpen(code: Code, more: string) {
    match code
    case End => false
    case Str(q, _, rest) =>
      if StaysOpen(PrintHead(code)) then q !in Print(rest) && q !in more else EndsOpen(rest, more)
    case Block(inner, rest) =>
      if StringsClose(inner) then EndsOpen(rest, more) else EndsOpen(inner, "}" + Print(rest) + more)
    case _ => EndsOpen(code.rest, more)
  }

  lemma {:induction false} EndsOpenDoesNotClose(code: Code, more: string)
    requires EndsOpen(code, more)
    ensures !StringsClose(code)
    decreases code
  {
    match code
    case Str(_, _, rest) => if !StaysOpen(PrintHead(code)) { EndsOpenDoesNotClose(rest, more); }
    case Block(inner, rest) => if StringsClose(inner) { EndsOpenDoesNotClose(rest, more); }
    case Text(_, rest) => EndsOpenDoesNotClose(rest, more);
    case LineComment(_, rest) => EndsOpenDoesNotClose(rest, more);
    case BlockComment(_, rest) => EndsOpenDoesNotClose(rest, more);
  }

  lemma AloneIsReadable(code: Code)
    requires !code.End? && Scannable(code) && StringsClose(Alone(code))
    ensures Readable(Alone(code)) && PrintHead(Alone(code)) == PrintHead(code) && Print(Alone(code)) == PrintHead(code)
    ensures Print(WithoutComments(Alone(code))) == PrintHead(WithoutComments(Alone(code)))
  {
    hide PiecesOf, MaskedBody, PrintPieces, StaysOpen;
    SameHead(code);
    EndIsReadable();
    match code
    case Block(inner, _) => BlockIsScannable(inner);
    case Str(q, body, _) => assert Scannable(Str(q, body, End));
    case Text(text, _) => assert Scannable(Text(text, End));
    case LineComment(text, _) => assert Scannable(LineComment(text, End));
    case BlockComment(text, _) => assert Scannable(BlockComment(text, End));
  }

  lemma EndIsReadable()
    ensures Scannable(End) && StringsClose(End)
  {
  }

  lemma SameHead(code: Code)
    requires !code.End?
    ensures PrintHead(Alone(code)) == PrintHead(code)
  {
  }

  /** An item whose literals are all closed is passed over in the masked text. */
  lemma ClosedItemIsSkipped(s: string, i: nat, code: Code, tail: string, depth: nat)
    requires !code.End? && Scannable(code) && StringsClose(Alone(code)) && depth >= 1
    requires i <= |s| && s[i..] == Masked(PrintHead(code) + tail)
    ensures i + |PrintHead(code)| <= |s| && s[i + |PrintHead(code)|..] == Masked(tail)
    ensures BraceFrom(s, i, depth) == BraceFrom(s, i + |PrintHead(code)|, depth)
  {
    AloneIsReadable(code);
    hide *;
    var one := Alone(code);
    var masked := WithoutComments(one);
    HeadIsMasked(one, tail);
    WithoutCommentsIsCommentFree(one);
    HoldsHead(s, i, PrintHead(masked), Masked(tail));
    CodeIsSkipped(s, i, masked, depth);
  }

  lemma HoldsHead(s: string, i: nat, head: string, tail: string)
    requires i <= |s| && s[i..] == head + tail
    ensures Holds(s, i, head) && s[i + |head|..] == tail
  {
    assert s[i..i + |head|] == s[i..][..|head|] && s[i + |head|..] == s[i..][|head|..];
  }

  /** A literal left open swallows the rest of its block: the brace found is not before the text that follows. */
  lemma {:induction false} OpenLiteralSwallows(s: string, i: nat, code: Code, more: string, after: string, depth: nat)
    requires Scannable(code) && EndsOpen(code, more) && after != "" && depth >= 1
    requires i <= |s| && s[i..] == Masked(Print(code) + more + after)
    ensures BraceFrom(s, i, depth) >= i + |Print(code)| + |more|
    decreases code
  {
    hide Masked, BraceFrom, PrintHead, StaysOpen, Holds;
    var tail := Print(code.rest) + more + after;
    assert Print(code) + more + after == PrintHead(code) + tail;
    if code.Str? && StaysOpen(PrintHead(code)) {
      OpenStringSwallows(s, i, code, more, after, depth);
    } else if code.Block? && !StringsClose(code.inner) {
      SameHead(code);
      BlockHead(s, i, code.inner, tail, depth);
      var more' := "}" + Print(code.rest) + more;
      assert Print(code.inner) + ("}" + tail) == Print(code.inner) + more' + after;
      OpenLiteralSwallows(s, i + 1, code.inner, more', after, depth + 1);
    } else {
      AloneCloses(code, more);
      ClosedItemIsSkipped(s, i, code, tail, depth);
      OpenLiteralSwallows(s, i + |PrintHead(code)|, code.rest, more, after, depth);
    }
  }

  lemma AloneCloses(code: Code, more: string)
    requires EndsOpen(code, more) && !(code.Str? && StaysOpen(PrintHead(code)))
    requires !(code.Block? && !StringsClose(code.inner))
    ensures StringsClose(Alone(code)) && EndsOpen(code.rest, more)
  {
  }

  lemma BlockHead(s: string, i: nat, inner: Code, tail: string, depth: nat)
    requires i <= |s| && s[i..] == Masked(PrintHead(Block(inner, End)) + tail)
    ensures i + 1 <= |s| && s[i + 1..] == Masked(Print(inner) + ("}" + tail))
    ensures BraceFrom(s, i, depth) == BraceFrom(s, i + 1, depth + 1)
  {
    hide Masked;
    var src := PrintHead(Block(inner, End)) + tail;
    assert src == "{" + (Print(inner) + ("}" + tail)) && src[1..] == Print(inner) + ("}" + tail);
    PlainHeadStays(src);
    HoldsHead(s, i, "{", Masked(src[1..]));
    assert s[i] == s[i..][0];
  }

  lemma OpenStringSwallows(s: string, i: nat, code: Code, more: string, after: string, depth: nat)
    requires code.Str? && WellEscaped(code.quote, code.body) && StaysOpen(PrintHead(code)) && after != ""
    requires code.quote !in Print(code.rest) && code.quote !in more
    requires i <= |s| && s[i..] == Masked(PrintHead(code) + (Print(code.rest) + more + after))
    ensures BraceFrom(s, i, depth) >= i + |Print(code)| + |more|
  {
    hide Masked, BraceFrom, StaysOpen, PrintPieces;
    var q, body := code.quote, code.body;
    var rest := Print(code.rest) + more + after;
    var n := |Print(code.rest)| + |more|;
    assert PrintHead(code) == [q] + PrintPieces(body) + [q];
    assert rest[..n] == Print(code.rest) + more;
    OpenLiteralGoesOn(s, i, q, body, rest, n, depth);
    BraceIsNotBefore(s, ClosingQuote(s, i + 1, q) + 1, depth);
    assert |s| - i == |PrintHead(code) + rest|;
  }

  /**
   The scanners agree on a block exactly if no literal in it leaves a comment open, whatever follows the block: only
   blank knows about strings, and for matchBrace on masked source the rest of the block has then become a string.
   The block may be any code in which the quote of the first such literal does not occur again after it.
   */
  lemma ScannersAgreeExactly(before: Code, inner: Code, after: string)
    requires Readable(before) && Scannable(inner) && (StringsClose(inner) || EndsOpen(inner, "}")) && after != ""
    ensures var block := "{" + Print(inner) + "}";
            var src := Print(before) + block + after;
            var open := |Print(before)|;
            && CountFrom(BlankFrom(src, 0), open, 0) == open + |block| - 1
            && (BraceFrom(Masked(src), open, 0) == CountFrom(BlankFrom(src, 0), open, 0) <==> StringsClose(inner))
  {
    hide Masked, BlankFrom, BraceFrom, CountFrom, StringsClose, EndsOpen;
    var block := Block(inner, End);
    Regroup(Print(before), PrintHead(block), after);
    BlankedScan(before, inner, after);
    if StringsClose(inner) {
      MaskedScan(before, inner, after);
    } else {
      var s, i := Masked(Print(before) + (PrintHead(block) + after)), |Print(before)|;
      CodeIsMasked(before, PrintHead(block) + after);
      WithoutCommentsIsCommentFree(before);
      assert s[i..] == Masked(PrintHead(block) + after);
      BlockHead(s, i, inner, after, 0);
      assert Print(inner) + ("}" + after) == Print(inner) + "}" + after;
      OpenLiteralSwallows(s, i + 1, inner, "}", after, 1);
    }
  }

  lemma LiteralSwallowsTheRest(q: char, body: seq<Piece>, after: string)
    requires WellEscaped(q, body) && q !in after && StaysOpen([q] + PrintPieces(body) + [q])
    ensures var src := "{" + ([q] + PrintPieces(body) + [q]) + "}" + after;
            BraceFrom(Masked(src), 0, 0) == |src| - 1
  {
    hide Masked, PrintPieces, StaysOpen;
    var literal := [q] + PrintPieces(body) + [q];
    var rest := "}" + after;
    var src := "{" + literal + "}" + after;
    assert src == "{" + (literal + rest) && src[1..] == literal + rest;
    PlainHeadStays(src);
    var s := Masked(src);
    assert s[1..] == Masked(literal + rest);
    assert rest[..|rest|] == rest;
    OpenLiteralGoesOn(s, 1, q, body, rest, |rest|, 1);
  }

  /** The same for a block that is one literal, and what matchBrace returns if its quote does not occur again at all. */
  lemma ScannersPartExactlyIfOpen(q: char, body: seq<Piece>, after: string)
    requires WellEscaped(q, body) && after != ""
    ensures var literal := [q] + PrintPieces(body) + [q];
            var src := "{" + literal + "}" + after;
            && CountFrom(BlankFrom(src, 0), 0, 0) == |literal| + 1
            && (BraceFrom(Masked(src), 0, 0) == CountFrom(BlankFrom(src, 0), 0, 0) <==> !StaysOpen(literal))
            && (StaysOpen(literal) && q !in after ==> BraceFrom(Masked(src), 0, 0) == |src| - 1)
  {
    hide Masked, BlankFrom, StaysOpen, PrintPieces, BraceFrom, CountFrom;
    var literal := [q] + PrintPieces(body) + [q];
    var inner := Str(q, body, End);
    assert literal + "" == literal && Print(inner) == literal && PrintHead(inner) == literal;
    assert StringsClose(inner) <==> !StaysOpen(literal);
    assert EndsOpen(inner, "}") <==> StaysOpen(literal);
    assert "" + ("{" + literal + "}") + after == "{" + literal + "}" + after;
    ScannersAgreeExactly(End, inner, after);
    if StaysOpen(literal) && q !in after { LiteralSwallowsTheRest(q, body, after); }
  }

  /** The smallest case: a line comment opened in a string. */
  lemma OpenerInStringParts()
    ensures var src := "{\"//\"}x";
            && BraceFrom(Masked(src), 0, 0) == 6
            && CountFrom(BlankFrom(src, 0), 0, 0) == 5
  {
    hide Masked, BlankFrom, BraceFrom, CountFrom;
    var body := [Plain('/'), Plain('/')];
    assert body[1..] == [Plain('/')] && [Plain('/')][1..] == [];
    assert PrintPieces(body) == "//";
    var literal := ['"'] + PrintPieces(body) + ['"'];
    assert literal[1..] == "//\"";
    NoNewline("//\"", 0);
    assert OpensForGood("//\"") && StaysOpen(literal);
    assert "{" + literal + "}" + "x" == "{\"//\"}x";
    ScannersPartExactlyIfOpen('"', body, "x");
  }

  lemma {:induction false} NoNewline(s: string, from: nat)
    requires OneLine(s)
    ensures IndexOf(s, "\n", from) == -1
    decreases |s| - from
  {
    if from < |s| {
      assert s[from..from + 1] == [s[from]];
      NoNewline(s, from + 1);
    }
  }

  // ---- The characters, spelled out ----

  /** A literal in apostrophes, quotation marks or backticks keeps its quotes only, escaped ones in it included. */
  lemma LiteralsAreBlanked(before: string, q: char, body: string, c: char, more: string, tail: string)
    requires q == '\'' || q == '"' || q == '`'
    requires q !in body && '\\' !in body && q !in more && '\\' !in more
    ensures Blanks(before + ([q] + body + [q] + tail), |before|, |before| + |body| + 2, [q] + Spaces(|body|) + [q])
    ensures var escaped := body + ['\\', c] + more;
            Blanks(before + ([q] + escaped + [q] + tail), |before|, |before| + |escaped| + 2,
                   [q] + Spaces(|escaped|) + [q])
  {
    hide Blanks, PrintPieces;
    EscapePrints(body, c, more);
    HoldsBetween(before, [q] + body + [q], tail);
    StringIsBlanked(before + ([q] + body + [q] + tail), |before|, q, PlainPieces(body));
    var pieces := PlainPieces(body) + ([Escaped(c)] + PlainPieces(more));
    assert WellEscaped(q, pieces);
    var escaped := body + ['\\', c] + more;
    HoldsBetween(before, [q] + escaped + [q], tail);
    StringIsBlanked(before + ([q] + escaped + [q] + tail), |before|, q, pieces);
  }

  lemma {:induction false} NeverCloses(src: string, i: nat, q: char)
    requires forall k :: i <= k < |src| ==> src[k] != q
    ensures ClosingQuote(src, i, q) >= |src|
    decreases |src| - i
  {
    if i < |src| { NeverCloses(src, if src[i] == '\\' then i + 2 else i + 1, q); }
  }

  /** A literal that is not closed goes on to the end of the text. */
  lemma OpenLiteralIsBlanked(src: string, i: nat, depth: int)
    requires i < |src| && (src[i] == '\'' || src[i] == '"' || src[i] == '`')
    requires forall k :: i < k < |src| ==> src[k] != src[i]
    ensures Blanks(src, i, |src|, [src[i]] + Spaces(|src| - i - 1)) && BraceFrom(src, i, depth) == |src| - 1
  {
    NeverCloses(src, i + 1, src[i]);
    hide ClosingQuote, BlankFrom;
    BlanksOnce(src, i);
    assert [src[i]] + Spaces(|src| - i - 1) + "" == [src[i]] + Spaces(|src| - i - 1);
  }

  /** The other characters stay, and the star of a comment's opener may be that of its end. */
  lemma OtherTurns(src: string, i: nat)
    ensures i < |src| && src[i] != '\'' && src[i] != '"' && src[i] != '`' && src[i] != '/' ==>
              Blanks(src, i, i + 1, [src[i]])
    ensures i + 3 <= |src| && src[i..i + 3] == "/*/" ==> Blanks(src, i, i + 3, "   ")
  {
    if i < |src| {
      BlanksOnce(src, i);
      if i + 3 <= |src| && src[i..i + 3] == "/*/" {
        var s := src[i..];
        assert s[0] == src[i..i + 3][0] && s[1] == src[i..i + 3][1] && s[2] == src[i..i + 3][2];
        assert s[1..3] == "*/" && s[0..2] == "/*" && IndexOf(s, "*/", 0) == IndexOf(s, "*/", 1) == 1;
        assert Spaces(3) == "   ";
      }
    }
  }

  /** One turn of the count of all braces. */
  lemma CountTurn(s: string, j: nat, depth: int)
    ensures j >= |s| ==> CountFrom(s, j, depth) == |s| - 1
    ensures j < |s| && s[j] == '{' ==> CountFrom(s, j, depth) == CountFrom(s, j + 1, depth + 1)
    ensures j < |s| && s[j] == '}' ==>
              CountFrom(s, j, depth) == if depth == 1 then j else CountFrom(s, j + 1, depth - 1)
    ensures j < |s| && s[j] != '{' && s[j] != '}' ==> CountFrom(s, j, depth) == CountFrom(s, j + 1, depth)
  {
  }

  // ---- Regular expressions ----

  /** A character, an escaped character, or a class, in which a slash is one character among others. */
  datatype Part = Single(c: char) | EscapedChar(c: char) | Class(text: string)

  function PrintPart(part: Part): (r: string)
    ensures r != ""
  {
    match part
    case Single(c) => [c]
    case EscapedChar(c) => ['\\', c]
    case Class(text) => "[" + text + "]"
  }

  function PrintParts(parts: seq<Part>): string {
    if parts == [] then "" else PrintPart(parts[0]) + PrintParts(parts[1..])
  }

  predicate WellFormedPart(part: Part) {
    match part
    case Single(c) => c != '\\' && c != '[' && c != ']' && c != '/' && c != '\n'
    case EscapedChar(_) => true
    case Class(text) => ']' !in text && '\\' !in text && '\n' !in text
  }

  /** One turn in a regular expression: where it goes on, and whether it is in a class then. */
  lemma RegexTurns(src: string, j: nat, inClass: bool)
    ensures j >= |src| ==> RegexEnd(src, j, inClass) == j
    ensures j < |src| && src[j] == '\n' ==> RegexEnd(src, j, inClass) == j
    ensures j < |src| && src[j] == '/' ==>
              RegexEnd(src, j, inClass) == if inClass then RegexEnd(src, j + 1, true) else j
    ensures j < |src| && src[j] == '\\' ==> RegexEnd(src, j, inClass) == RegexEnd(src, j + 2, inClass)
    ensures j < |src| && src[j] == '[' ==> RegexEnd(src, j, inClass) == RegexEnd(src, j + 1, true)
    ensures j < |src| && src[j] == ']' ==> RegexEnd(src, j, inClass) == RegexEnd(src, j + 1, false)
    ensures j < |src| && src[j] !in "\n/\\[]" ==> RegexEnd(src, j, inClass) == RegexEnd(src, j + 1, inClass)
  {
  }

  lemma {:induction false} ClassIsPassed(src: string, j: nat, text: string)
    requires ']' !in text && '\\' !in text && '\n' !in text && Holds(src, j, text)
    ensures RegexEnd(src, j, true) == RegexEnd(src, j + |text|, true)
    decreases |text|
  {
    hide RegexEnd;
    if text == "" {
    } else {
      assert text == [text[0]] + text[1..];
      HoldsParts(src, j, [text[0]], text[1..]);
      assert src[j] == src[j..j + 1][0] == text[0];
      RegexTurns(src, j, true);
      ClassIsPassed(src, j + 1, text[1..]);
    }
  }

  lemma PartIsPassed(src: string, j: nat, part: Part)
    requires WellFormedPart(part) && Holds(src, j, PrintPart(part))
    ensures RegexEnd(src, j, false) == RegexEnd(src, j + |PrintPart(part)|, false)
  {
    hide RegexEnd;
    var text := PrintPart(part);
    assert src[j] == src[j..j + |text|][0];
    RegexTurns(src, j, false);
    if part.Class? {
      HoldsParts(src, j, "[" + part.text, "]");
      HoldsParts(src, j, "[", part.text);
      var close := j + 1 + |part.text|;
      assert src[close] == src[close..close + 1][0];
      RegexTurns(src, close, true);
      ClassIsPassed(src, j + 1, part.text);
    }
  }

  lemma {:induction false} PartsArePassed(src: string, j: nat, parts: seq<Part>, close: char)
    requires close == '/' || close == '\n'
    requires (forall k :: 0 <= k < |parts| ==> WellFormedPart(parts[k])) && Holds(src, j, PrintParts(parts) + [close])
    ensures RegexEnd(src, j, false) == j + |PrintParts(parts)|
    decreases |parts|
  {
    hide WellFormedPart, RegexEnd, PrintPart, Holds;
    if parts == [] {
      assert PrintParts(parts) + [close] == [close];
      HeldFrom(src, j, [close]);
      RegexTurns(src, j, false);
    } else {
      var head, tail := PrintPart(parts[0]), PrintParts(parts[1..]);
      Regroup(head, tail, [close]);
      HoldsParts(src, j, head, tail + [close]);
      PartIsPassed(src, j, parts[0]);
      PartsArePassed(src, j + |head|, parts[1..], close);
    }
  }

  /** The last character before the white space, if it is near enough. */
  lemma PreviousIs(before: string, c: char, pad: string, rest: string)
    requires Common.Blank(pad) && !WhiteSpace(c)
    ensures Previous(before + [c] + pad + rest, |before| + 1 + |pad|) == if |pad| < 40 then Some(c) else None
  {
    var src, i := before + [c] + pad + rest, |before| + 1 + |pad|;
    var window := src[if i >= 40 then i - 40 else 0..i];
    if |pad| < 40 {
      var head := window[..|window| - |pad|];
      assert window == head + pad && head != "" && head[|head| - 1] == c;
      TrimEndPadding(head, pad);
    } else {
      assert Common.Blank(window);
      assert "" + window == window;
      TrimEndPadding("", window);
    }
  }

  /**
   A slash after `c` and white space begins a regular expression exactly if `c` is one of twelve characters and fewer
   than 40 characters of white space come between; it is blanked to its closing slash, whatever classes and escapes it
   has, or to the newline that cuts it off, which is blanked too.  Every other slash stays.
   */
  lemma RegexIsBlanked(before: string, c: char, pad: string, parts: seq<Part>, close: char, tail: string)
    requires Common.Blank(pad) && !WhiteSpace(c) && (close == '/' || close == '\n')
    requires parts != [] && forall k :: 0 <= k < |parts| ==> WellFormedPart(parts[k])
    requires parts[0] != Single('*')
    ensures var body := PrintParts(parts);
            var src, i := before + [c] + pad + ("/" + body + [close] + tail), |before| + 1 + |pad|;
            if c in "(,=:[!&|?{;+" && |pad| < 40
            then Blanks(src, i, i + |body| + 2, Spaces(|body| + 2))
            else Blanks(src, i, i + 1, "/")
  {
    hide RegexEnd, WellFormedPart, Previous, BlankFrom, PrintParts;
    var body := PrintParts(parts);
    var src, i := before + [c] + pad + ("/" + body + [close] + tail), |before| + 1 + |pad|;
    PreviousIs(before, c, pad, "/" + body + [close] + tail);
    BodyBegins(parts);
    assert src[i..] == "/" + body + [close] + tail;
    assert src[i] == '/' && src[i + 1] == body[0];
    BlanksOnce(src, i);
    if c in "(,=:[!&|?{;+" && |pad| < 40 {
      assert src[i + 1..i + 2 + |body|] == body + [close];
      PartsArePassed(src, i + 1, parts, close);
      RegexTurn(src, i);
    } else {
      PlainTurn(src, i);
    }
  }

  lemma BodyBegins(parts: seq<Part>)
    requires parts != [] && WellFormedPart(parts[0]) && parts[0] != Single('*')
    ensures PrintParts(parts) != "" && PrintParts(parts)[0] != '/' && PrintParts(parts)[0] != '*'
  {
  }

  // ---- Verify, then use ----

  /** A `where` or `data` clause: where its brace opens, and whether it names the business id and the tenant. */
  datatype Clause = Clause(open: nat, touches: bool, namesTenant: bool)

  datatype Why = UnscopedWhere | WrittenUnverified | NoTenant

  /** What the patterns found in a handler. */
  datatype Handler = Handler(fromPath: bool, fromQuery: bool, fromBody: bool, guarded: bool, helper: bool,
                             wheres: seq<Clause>, datas: seq<Clause>, hasTenant: bool)

  predicate InOrder(clauses: seq<Clause>) {
    forall i, j :: 0 <= i < j < |clauses| ==> clauses[i].open < clauses[j].open
  }

  /** The clause at `i` reads the business id together with the tenant. */
  predicate Verifies(clauses: seq<Clause>, i: nat)
    requires i < |clauses|
  {
    clauses[i].touches && clauses[i].namesTenant
  }

  predicate Verified(clauses: seq<Clause>, n: nat)
    requires n <= |clauses|
  {
    exists i :: 0 <= i < n && Verifies(clauses, i)
  }

  /** Some clause among the first `n` reads the business id with no verification before it. */
  predicate Unscoped(clauses: seq<Clause>, n: nat)
    requires n <= |clauses|
  {
    exists i :: 0 <= i < n && clauses[i].touches && !clauses[i].namesTenant && !Verified(clauses, i)
  }

  predicate Writes(datas: seq<Clause>) {
    exists i :: 0 <= i < |datas| && datas[i].touches
  }

  /** Not a handler the guard looks at, or one with an ownership helper. */
  predicate Exempt(h: Handler) {
    || (!h.fromPath && !h.fromQuery && !h.fromBody)
    || (!h.fromQuery && !h.fromBody && h.guarded)
    || h.helper
  }

  predicate Passes(h: Handler) {
    || Exempt(h)
    || (!Unscoped(h.wheres, |h.wheres|)
        && (Verified(h.wheres, |h.wheres|) || (h.hasTenant && !Writes(h.datas))))
  }

  /**
   Who passes, case by case.  A guarded mount speaks for an id in the path and for no other; an id from query or body
   passes with a helper, or if every read of it comes with the tenant or after one that does, and there is such a read
   or the handler names the tenant and writes no id.
   */
  lemma WhoPasses(h: Handler)
    ensures h.helper || (!h.fromPath && !h.fromQuery && !h.fromBody) ==> Passes(h)
    ensures h.fromPath && !h.fromQuery && !h.fromBody && h.guarded ==> Passes(h)
    ensures (h.fromQuery || h.fromBody || (h.fromPath && !h.guarded)) && !h.helper ==>
              (Passes(h) <==>
                && (forall i :: 0 <= i < |h.wheres| && h.wheres[i].touches && !h.wheres[i].namesTenant ==>
                      exists k :: 0 <= k < i && h.wheres[k].touches && h.wheres[k].namesTenant)
                && ((exists k :: 0 <= k < |h.wheres| && h.wheres[k].touches && h.wheres[k].namesTenant)
                    || (h.hasTenant && forall j :: 0 <= j < |h.datas| ==> !h.datas[j].touches)))
  {
    forall n: nat | n <= |h.wheres|
      ensures Verified(h.wheres, n)
              <==> exists k :: 0 <= k < n && h.wheres[k].touches && h.wheres[k].namesTenant
    {
      if k :| 0 <= k < n && h.wheres[k].touches && h.wheres[k].namesTenant {
        assert Verifies(h.wheres, k);
      }
    }
  }

  /** The rule the comments give for a written id: a verifying read comes before the clause that writes it. */
  predicate WrittenAfterRead(h: Handler, d: Clause) {
    exists i :: 0 <= i < |h.wheres| && Verifies(h.wheres, i) && h.wheres[i].open < d.open
  }

  /** Passing by the rule of the comments. */
  ghost predicate PassesByTheRule(h: Handler) {
    || Exempt(h)
    || (!Unscoped(h.wheres, |h.wheres|)
        && (Verified(h.wheres, |h.wheres|) || h.hasTenant)
        && forall j :: 0 <= j < |h.datas| && h.datas[j].touches ==> WrittenAfterRead(h, h.datas[j]))
  }

  lemma {:induction false} FirstVerifying(wheres: seq<Clause>, n: nat) returns (i: nat)
    requires n <= |wheres| && Verified(wheres, n)
    ensures i < n && Verifies(wheres, i) && !Verified(wheres, i)
    decreases n
  {
    if Verified(wheres, n - 1) {
      i := FirstVerifying(wheres, n - 1);
    } else {
      i := n - 1;
    }
  }

  /**
   The code asks only whether some read verifies, not whether it came first.  So it passes all that the rule passes,
   and the two agree exactly if no id is written by a clause that opens at or before the first verifying read.
   */
  lemma EarlyWritesPass(h: Handler)
    requires InOrder(h.wheres) && !Exempt(h) && !Unscoped(h.wheres, |h.wheres|) && Verified(h.wheres, |h.wheres|)
    ensures Passes(h)
    ensures exists i :: 0 <= i < |h.wheres| && Verifies(h.wheres, i) && !Verified(h.wheres, i)
              && (PassesByTheRule(h)
                  <==> forall j :: 0 <= j < |h.datas| && h.datas[j].touches ==> h.wheres[i].open < h.datas[j].open)
  {
    var i := FirstVerifying(h.wheres, |h.wheres|);
    forall d: Clause
      ensures WrittenAfterRead(h, d) <==> h.wheres[i].open < d.open
    {
      if k :| 0 <= k < |h.wheres| && Verifies(h.wheres, k) && h.wheres[k].open < d.open {
        assert k >= i;
      }
    }
  }

  /** Everywhere else the code is the rule. */
  lemma RuleElsewhere(h: Handler)
    requires Exempt(h) || Unscoped(h.wheres, |h.wheres|) || !Verified(h.wheres, |h.wheres|)
    ensures Passes(h) <==> PassesByTheRule(h)
  {
    if !Exempt(h) && !Verified(h.wheres, |h.wheres|) {
      assert forall d: Clause :: !WrittenAfterRead(h, d);
    }
  }

  /** A handler that writes an id first and reads it with the tenant afterwards passes, against the rule. */
  lemma EarlyWrite()
    ensures var h := Handler(false, false, true, false, false, [Clause(9, true, true)], [Clause(2, true, true)], true);
            Passes(h) && !PassesByTheRule(h)
  {
    var h := Handler(false, false, true, false, false, [Clause(9, true, true)], [Clause(2, true, true)], true);
    assert Verifies(h.wheres, 0) && Verified(h.wheres, 1);
    assert !WrittenAfterRead(h, h.datas[0]);
  }

  /** Whether a handler is reported, and why: a verification covers the clauses after it and no other. */
  method CheckHandler(h: Handler) returns (r: Option<Why>)
    requires InOrder(h.wheres)
    ensures r == None <==> Passes(h)
    ensures r == Some(UnscopedWhere) ==> Unscoped(h.wheres, |h.wheres|)
    ensures r == Some(WrittenUnverified) ==>
              !Unscoped(h.wheres, |h.wheres|) && !Verified(h.wheres, |h.wheres|) && Writes(h.datas)
    ensures r == Some(NoTenant) ==> !Unscoped(h.wheres, |h.wheres|) && !h.hasTenant && !Writes(h.datas)
  {
    if !h.fromPath && !h.fromQuery && !h.fromBody { return None; }
    if !h.fromQuery && !h.fromBody && h.guarded { return None; }
    if h.helper { return None; }
    var verifiedAt: Option<nat> := None;
    var unscoped := false;
    for k := 0 to |h.wheres|
      invariant verifiedAt.Some? <==> Verified(h.wheres, k)
      invariant verifiedAt.Some? ==>
                  exists i :: 0 <= i < k && Verifies(h.wheres, i) && h.wheres[i].open == verifiedAt.value
      invariant unscoped <==> Unscoped(h.wheres, k)
    {
      var w := h.wheres[k];
      assert Verified(h.wheres, k + 1) <==> Verified(h.wheres, k) || Verifies(h.wheres, k);
      assert Unscoped(h.wheres, k + 1)
        <==> Unscoped(h.wheres, k) || (w.touches && !w.namesTenant && !Verified(h.wheres, k));
      if !w.touches { continue; }
      if w.namesTenant {
        if verifiedAt == None { verifiedAt := Some(w.open); }
      } else if verifiedAt == None || w.open < verifiedAt.value {
        unscoped := true;
      }
    }
    var writtenUnverified := false;
    if verifiedAt == None {
      for k := 0 to |h.datas|
        invariant writtenUnverified <==> exists i :: 0 <= i < k && h.datas[i].touches
      {
        if h.datas[k].touches { writtenUnverified := true; }
      }
    }
    if verifiedAt.Some? && !unscoped { return None; }
    if !unscoped && !writtenUnverified && h.hasTenant { return None; }
    r := Some(if unscoped then UnscopedWhere else if writtenUnverified then WrittenUnverified else NoTenant);
  }
}
