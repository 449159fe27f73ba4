/**
 The parsing primitives of the guard scripts: comments are blanked out of a source text without moving anything,
 and a block is closed by counting braces outside string literals.
 */
module SourceScan {
  // ---- indexOf ----

  predicate Occurs(s: string, needle: string, at: nat) {
    at + |needle| <= |s| && s[at..at + |needle|] == needle
  }

  /** The first occurrence of `needle` at or after `from`, or -1. */
  function IndexOf(s: string, needle: string, from: nat): (r: int)
    requires needle != ""
    ensures r == -1 || (from <= r && Occurs(s, needle, r))
    decreases |s| - from
  {
    if from + |needle| > |s| then -1
    else if Occurs(s, needle, from) then from
    else IndexOf(s, needle, from + 1)
  }

  lemma {:induction false} IndexOfIsFirst(s: string, needle: string, from: nat, k: nat)
    requires needle != "" && from <= k && Occurs(s, needle, k)
    ensures from <= IndexOf(s, needle, from) <= k
    decreases |s| - from
  {
    if !Occurs(s, needle, from) {
      IndexOfIsFirst(s, needle, from + 1, k);
    }
  }

  lemma {:induction false} IndexOfSuffix(s: string, needle: string, i: nat, from: nat)
    requires needle != "" && i <= |s|
    ensures IndexOf(s[i..], needle, from) == var r := IndexOf(s, needle, i + from); if r == -1 then -1 else r - i
    decreases |s| - from
  {
    if i + from + |needle| <= |s| {
      assert s[i..][from..from + |needle|] == s[i + from..i + from + |needle|];
      IndexOfSuffix(s, needle, i, from + 1);
    }
  }

  /** What is found in a prefix is found in the whole. */
  lemma {:induction false} IndexOfPrefix(a: string, b: string, needle: string, from: nat)
    requires needle != "" && IndexOf(a, needle, from) != -1
    ensures IndexOf(a + b, needle, from) == IndexOf(a, needle, from)
    decreases |a| - from
  {
    assert (a + b)[from..from + |needle|] == a[from..from + |needle|];
    if !Occurs(a, needle, from) {
      IndexOfPrefix(a, b, needle, from + 1);
    }
  }

  // ---- Comments ----

  function Spaces(n: nat): (r: string)
    ensures |r| == n
  {
    seq(n, _ => ' ')
  }

  predicate LineOpener(s: string) {
    |s| >= 2 && s[0] == '/' && s[1] == '/'
  }

  predicate BlockOpener(s: string) {
    |s| >= 2 && s[0] == '/' && s[1] == '*'
  }

  /** A comment that begins a text ends before the newline, or after the first star-slash, or with the text. */
  function CommentLength(s: string): (n: nat)
    requires LineOpener(s) || BlockOpener(s)
    ensures 2 <= n <= |s|
  {
    if LineOpener(s) then
      var j := IndexOf(s, "\n", 0);
      if j == -1 then |s| else
        assert s[j..j + 1][0] == '\n';
        j
    else
      var j := IndexOf(s, "*/", 0);
      if j == -1 then |s| else
        j + 2
  }

  /** What the loop consumes in one turn: a whole comment, or one character. */
  function TokenLength(s: string): (n: nat)
    requires s != ""
    ensures 1 <= n <= |s|
  {
    if LineOpener(s) || BlockOpener(s) then CommentLength(s) else 1
  }

  function MaskToken(s: string): (r: string)
    requires s != ""
    ensures |r| == TokenLength(s)
  {
    if LineOpener(s) || BlockOpener(s) then Spaces(CommentLength(s)) else [s[0]]
  }

  /** The text with its comments blanked, as a lexer. */
  function Masked(s: string): (r: string)
    ensures |r| == |s|
    decreases |s|
  {
    if s == "" then "" else MaskToken(s) + Masked(s[TokenLength(s)..])
  }

  lemma LineToken(src: string, i: nat)
    requires i + 1 < |src| && src[i] == '/' && src[i + 1] == '/'
    ensures var j := IndexOf(src, "\n", i);
            MaskToken(src[i..]) == Spaces((if j == -1 then |src| else j) - i)
  {
    hide IndexOf;
    IndexOfSuffix(src, "\n", i, 0);
  }

  lemma BlockToken(src: string, i: nat)
    requires i + 1 < |src| && src[i] == '/' && src[i + 1] == '*'
    ensures var j := IndexOf(src, "*/", i);
            MaskToken(src[i..]) == Spaces((if j == -1 then |src| else j + 2) - i)
  {
    hide IndexOf;
    IndexOfSuffix(src, "*/", i, 0);
  }

  lemma PlainToken(src: string, i: nat)
    requires i < |src| && !(i + 1 < |src| && src[i] == '/' && (src[i + 1] == '/' || src[i + 1] == '*'))
    ensures MaskToken(src[i..]) == [src[i]]
  {
  }

  lemma MaskStep(src: string, i: nat)
    requires i < |src|
    ensures Masked(src[i..]) == MaskToken(src[i..]) + Masked(src[i + TokenLength(src[i..])..])
  {
    var n := TokenLength(src[i..]);
    assert src[i..][n..] == src[i + n..];
  }

  /** `done` is masked, `token` and then `rest` come next. */
  lemma Regroup(done: string, token: string, rest: string)
    ensures done + (token + rest) == (done + token) + rest
  {
  }

  /** `src.split('')`. */
  method Split(src: string) returns (chars: array<char>)
    ensures fresh(chars) && chars[..] == src
  {
    chars := new char[|src|](k requires 0 <= k < |src| => src[k]);
  }

  /** `out.join('')` is the contents of the array. */
  method BlankComments(src: string) returns (out: string)
    ensures out == Masked(src)
  {
    hide MaskToken, TokenLength;
    var chars := Split(src);
    var i := 0;
    assert chars[0..] == src[0..] == src && "" + Masked(src) == Masked(src);
    while i < |src|
      invariant i <= |src| == chars.Length && chars[i..] == src[i..]
      invariant chars[..i] + Masked(src[i..]) == Masked(src)
    {
      ghost var token := MaskToken(src[i..]);
      MaskStep(src, i);
      Regroup(chars[..i], token, Masked(src[i + |token|..]));
      i := BlankToken(chars, i, src, token);
    }
    assert chars[..i] == chars[..] && chars[..i] + "" == chars[..i];
    out := chars[..];
  }

  /** One turn of the loop: the token at `i` is blanked if it is a comment, and passed. */
  method BlankToken(chars: array<char>, i: nat, src: string, ghost token: string) returns (next: nat)
    requires i < chars.Length == |src| && chars[i..] == src[i..] && token == MaskToken(src[i..])
    modifies chars
    ensures next == i + |token| <= |src| && chars[next..] == src[next..]
    ensures chars[..next] == old(chars[..i]) + token
  {
    hide MaskToken;
    hide Masked, TokenLength, CommentLength;
    var c := src[i];
    if c == '/' && i + 1 < |src| && src[i + 1] == '/' {
      LineToken(src, i);
      var j := IndexOf(src, "\n", i);
      if j == -1 { j := |src|; }
      next := BlankRange(chars, i, j, src);
    } else if c == '/' && i + 1 < |src| && src[i + 1] == '*' {
      BlockToken(src, i);
      var j := IndexOf(src, "*/", i);
      j := if j == -1 then |src| else j + 2;
      next := BlankRange(chars, i, j, src);
    } else {
      PlainToken(src, i);
      assert chars[i..][1..] == chars[i + 1..] && src[i..][1..] == src[i + 1..];
      assert chars[..i + 1] == chars[..i] + [c];
      next := i + 1;
    }
  }

  /** The loop `for (let k = i; k < j; k++) out[k] = ' '`, followed by `i = j`. */
  method BlankRange(chars: array<char>, i: nat, j: nat, ghost src: string) returns (next: nat)
    requires i <= j <= chars.Length == |src| && chars[i..] == src[i..]
    modifies chars
    ensures next == j
    ensures chars[..j] == old(chars[..i]) + Spaces(j - i) && chars[j..] == src[j..]
  {
    for k := i to j
      invariant chars[..i] == old(chars[..i]) && chars[i..k] == Spaces(k - i) && chars[k..] == src[k..]
    {
      chars[k] := ' ';
      assert chars[i..k + 1] == chars[i..k] + [' '];
    }
    assert chars[..j] == chars[..i] + chars[i..j];
    next := j;
  }

  // ---- What blanking guarantees ----

  /** No comment begins anywhere in the text. */
  predicate NoOpener(s: string) {
    forall k :: 0 <= k < |s| - 1 ==> !(s[k] == '/' && (s[k + 1] == '/' || s[k + 1] == '*'))
  }

  /** Blanking moves nothing: every character stays or becomes a space. */
  lemma {:induction false} MaskedKeepsOrBlanks(s: string, k: nat)
    requires k < |s|
    ensures Masked(s)[k] == s[k] || Masked(s)[k] == ' '
    decreases |s|
  {
    var n := TokenLength(s);
    if k >= n {
      MaskedKeepsOrBlanks(s[n..], k - n);
      assert Masked(s)[k] == Masked(s[n..])[k - n];
    }
  }

  /** After blanking no `//` and no slash-star is left. */
  lemma {:induction false} MaskedHasNoOpener(s: string)
    ensures NoOpener(Masked(s))
    decreases |s|
  {
    if s == "" {
    } else {
      var n := TokenLength(s);
      MaskedHasNoOpener(s[n..]);
      if n < |s| { MaskedKeepsOrBlanks(s[n..], 0); }
    }
  }

  lemma {:induction false} NoOpenerIsUnmasked(s: string)
    requires NoOpener(s)
    ensures Masked(s) == s
    decreases |s|
  {
    if s == "" {
    } else {
      NoOpenerIsUnmasked(s[1..]);
    }
  }

  lemma MaskingIsIdempotent(s: string)
    ensures Masked(Masked(s)) == Masked(s)
  {
    MaskedHasNoOpener(s);
    NoOpenerIsUnmasked(Masked(s));
  }

  /** A comment begins the text and does not end in it. */
  predicate OpensForGood(s: string) {
    (LineOpener(s) && IndexOf(s, "\n", 0) == -1) || (BlockOpener(s) && IndexOf(s, "*/", 0) == -1)
  }

  /** The text ends inside a comment. */
  predicate StaysOpen(s: string)
    decreases |s|
  {
    s != "" && (OpensForGood(s) || StaysOpen(s[TokenLength(s)..]))
  }

  /** The text ends inside a block comment. */
  predicate OpenComment(s: string)
    decreases |s|
  {
    s != "" && ((BlockOpener(s) && IndexOf(s, "*/", 0) == -1) || OpenComment(s[TokenLength(s)..]))
  }

  lemma {:induction false} NewlineEndsLines(s: string)
    requires s == "" || s[|s| - 1] == '\n'
    ensures StaysOpen(s) <==> OpenComment(s)
    decreases |s|
  {
    if s == "" {
    } else {
      assert s[|s| - 1..|s|] == "\n";
      if LineOpener(s) { IndexOfIsFirst(s, "\n", 0, |s| - 1); }
      NewlineEndsLines(s[TokenLength(s)..]);
    }
  }

  /** A token that ends in `a` ends there whatever follows. */
  lemma TokenEndsInPrefix(a: string, b: string)
    requires a != "" && a[|a| - 1] != '/' && !OpensForGood(a)
    ensures TokenLength(a + b) == TokenLength(a) && MaskToken(a + b) == MaskToken(a)
  {
    if LineOpener(a) {
      IndexOfPrefix(a, b, "\n", 0);
    } else if BlockOpener(a) {
      IndexOfPrefix(a, b, "*/", 0);
    } else {
      assert !LineOpener(a + b) && !BlockOpener(a + b);
    }
  }

  /** A comment that does not end in `a` covers the rest of it, whatever follows. */
  lemma OpenTokenGoesOn(a: string, b: string)
    requires OpensForGood(a)
    ensures TokenLength(a + b) >= |a| && MaskToken(a + b) == Spaces(TokenLength(a + b))
  {
    var needle := if LineOpener(a) then "\n" else "*/";
    var j := IndexOf(a + b, needle, 0);
    if j != -1 && j + |needle| <= |a| {
      assert a[j..j + |needle|] == (a + b)[j..j + |needle|];
      IndexOfIsFirst(a, needle, 0, j);
    }
  }

  /** Blanking distributes over any split outside comments that does not cut a comment opener in two. */
  lemma {:induction false} MaskingSplits(a: string, b: string)
    requires a == "" || a[|a| - 1] != '/'
    requires !StaysOpen(a)
    ensures Masked(a + b) == Masked(a) + Masked(b)
    decreases |a|
  {
    hide MaskToken, TokenLength, OpensForGood;
    if a == "" {
      assert a + b == b;
    } else {
      TokenEndsInPrefix(a, b);
      var n := TokenLength(a);
      assert (a + b)[n..] == a[n..] + b;
      MaskingSplits(a[n..], b);
      assert MaskToken(a) + (Masked(a[n..]) + Masked(b)) == (MaskToken(a) + Masked(a[n..])) + Masked(b);
    }
  }

  /**
   Blanking distributes over a split after a newline, unless the first part leaves a block comment open: the
   scripts may cut a file into lines and mask each.
   */
  lemma MaskingDistributes(a: string, b: string)
    requires a == "" || a[|a| - 1] == '\n'
    requires !OpenComment(a)
    ensures Masked(a + b) == Masked(a) + Masked(b)
  {
    NewlineEndsLines(a);
    MaskingSplits(a, b);
  }

  /** The last character of a text is blanked, whatever follows, exactly if the text ends inside a comment. */
  lemma {:induction false} LostExactlyIfOpen(a: string, b: string)
    requires a != "" && a[|a| - 1] != '/' && a[|a| - 1] != ' '
    ensures Masked(a + b)[|a| - 1] == (if StaysOpen(a) then ' ' else a[|a| - 1])
    decreases |a|
  {
    hide OpensForGood, CommentLength;
    var s := a + b;
    if OpensForGood(a) {
      OpenTokenGoesOn(a, b);
      assert Masked(s)[|a| - 1] == Spaces(TokenLength(s))[|a| - 1];
    } else {
      TokenEndsInPrefix(a, b);
      var n := TokenLength(a);
      assert s[n..] == a[n..] + b;
      if n < |a| {
        LostExactlyIfOpen(a[n..], b);
        assert Masked(s)[|a| - 1] == Masked(s[n..])[|a| - 1 - n];
      } else {
        assert !LineOpener(a) && !BlockOpener(a) by {
          if LineOpener(a) || BlockOpener(a) { EndedCommentIsShorter(a); }
        }
        assert |a| == 1 && MaskToken(a) == [a[0]];
        assert Masked(s)[|a| - 1] == MaskToken(a)[|a| - 1];
      }
    }
  }

  lemma EndedCommentIsShorter(a: string)
    requires (LineOpener(a) || BlockOpener(a)) && !OpensForGood(a) && a[|a| - 1] != '/'
    ensures CommentLength(a) < |a|
  {
    if BlockOpener(a) {
      var j := IndexOf(a, "*/", 0);
      assert a[j + 1] == a[j..j + 2][1];
    }
  }

  // ---- Braces ----

  predicate Quote(c: char) {
    c == '\'' || c == '"' || c == '`'
  }

  /** Where a string literal entered at `i` is closed by `q`; past the end when it is not. */
  function ClosingQuote(s: string, i: nat, q: char): (j: nat)
    ensures j >= i
    decreases |s| - i
  {
    if i >= |s| || s[i] == q then i
    else ClosingQuote(s, if s[i] == '\\' then i + 2 else i + 1, q)
  }

  /** The brace that closes the block, counting from `i` with `depth` blocks open. */
  function BraceFrom(s: string, i: nat, depth: int): int
    decreases |s| - i
  {
    if i >= |s| then |s| - 1
    else if Quote(s[i]) then BraceFrom(s, ClosingQuote(s, i + 1, s[i]) + 1, depth)
    else if s[i] == '{' then BraceFrom(s, i + 1, depth + 1)
    else if s[i] == '}' then if depth == 1 then i else BraceFrom(s, i + 1, depth - 1)
    else BraceFrom(s, i + 1, depth)
  }

  method MatchBrace(s: string, open: nat) returns (close: int)
    ensures close == BraceFrom(s, open, 0)
  {
    var depth := 0;
    var i := open;
    while i < |s|
      invariant BraceFrom(s, i, depth) == BraceFrom(s, open, 0)
      decreases |s| - i
    {
      var c := s[i];
      if Quote(c) {
        var q := c;
        ghost var opening := i;
        i := i + 1;
        while i < |s| && s[i] != q
          invariant opening < i && ClosingQuote(s, i, q) == ClosingQuote(s, opening + 1, q)
          decreases |s| - i
        {
          if s[i] == '\\' { i := i + 1; }
          i := i + 1;
        }
        i := i + 1;
        continue;
      }
      if c == '{' {
        depth := depth + 1;
      } else if c == '}' {
        depth := depth - 1;
        if depth == 0 { return i; }
      }
      i := i + 1;
    }
    close := |s| - 1;
  }

  // ---- Code, and its text ----

  datatype Piece = Plain(c: char) | Escaped(c: char)

  /** A piece of source code: text, string literals, blocks and comments in a row. */
  datatype Code =
    | End
    | Text(text: string, rest: Code)
    | Str(quote: char, body: seq<Piece>, rest: Code)
    | Block(inner: Code, rest: Code)
    | LineComment(text: string, rest: Code)
    | BlockComment(text: string, rest: Code)

  function PrintPieces(body: seq<Piece>): string {
    if body == [] then ""
    else (match body[0] case Plain(c) => [c] case Escaped(c) => ['\\', c]) + PrintPieces(body[1..])
  }

  /** The text of one item, without what follows it. */
  function PrintHead(code: Code): string
    requires !code.End?
    decreases code, 0
  {
    match code
    case Text(text, _) => text
    case Str(q, body, _) => [q] + PrintPieces(body) + [q]
    case Block(inner, _) => "{" + Print(inner) + "}"
    case LineComment(text, _) => "//" + text + "\n"
    case BlockComment(text, _) => "/*" + text + "*/"
  }

  function Print(code: Code): string
    decreases code, 1
  {
    if code.End? then "" else PrintHead(code) + Print(code.rest)
  }

  /** Text free of braces and quotes. */
  predicate Unbraced(text: string) {
    forall i :: 0 <= i < |text| ==> text[i] != '{' && text[i] != '}' && !Quote(text[i])
  }

  predicate WellEscaped(q: char, body: seq<Piece>) {
    Quote(q) && forall i :: 0 <= i < |body| ==> body[i].Plain? ==> body[i].c != q && body[i].c != '\\'
  }

  /** Text free of braces and quotes, well-escaped string literals, and blocks of these. */
  predicate CommentFree(code: Code) {
    match code
    case End => true
    case Text(text, rest) => Unbraced(text) && CommentFree(rest)
    case Str(q, body, rest) => WellEscaped(q, body) && CommentFree(rest)
    case Block(inner, rest) => CommentFree(inner) && CommentFree(rest)
    case _ => false
  }

  /** `part` stands in `s` at `i`. */
  predicate Holds(s: string, i: nat, part: string) {
    i + |part| <= |s| && s[i..i + |part|] == part
  }

  lemma HoldsParts(s: string, i: nat, a: string, b: string)
    requires Holds(s, i, a + b)
    ensures Holds(s, i, a) && Holds(s, i + |a|, b)
  {
    assert s[i..i + |a|] == (a + b)[..|a|];
    assert s[i + |a|..i + |a| + |b|] == (a + b)[|a|..];
  }

  lemma {:induction false} TextIsSkipped(s: string, i: nat, text: string, depth: int)
    requires Unbraced(text) && Holds(s, i, text)
    ensures BraceFrom(s, i, depth) == BraceFrom(s, i + |text|, depth)
    decreases |text|
  {
    if text == "" {
    } else {
      assert text == [text[0]] + text[1..];
      HoldsParts(s, i, [text[0]], text[1..]);
      assert s[i] == s[i..i + 1][0];
      TextIsSkipped(s, i + 1, text[1..], depth);
    }
  }

  lemma {:induction false} StringIsClosed(s: string, i: nat, q: char, body: seq<Piece>)
    requires WellEscaped(q, body) && Holds(s, i, PrintPieces(body) + [q])
    ensures ClosingQuote(s, i, q) == i + |PrintPieces(body)|
    decreases |body|
  {
    if body == [] {
      assert s[i..i + 1][0] == q;
    } else {
      var first := match body[0] case Plain(c) => [c] case Escaped(c) => ['\\', c];
      var rest := PrintPieces(body[1..]) + [q];
      assert PrintPieces(body) + [q] == first + rest;
      HoldsParts(s, i, first, rest);
      assert s[i] == s[i..i + |first|][0];
      assert q != '\\';
      StringIsClosed(s, i + |first|, q, body[1..]);
    }
  }

  lemma StringIsSkipped(s: string, i: nat, q: char, body: seq<Piece>, depth: int)
    requires WellEscaped(q, body) && Holds(s, i, [q] + PrintPieces(body) + [q])
    ensures BraceFrom(s, i, depth) == BraceFrom(s, i + |PrintPieces(body)| + 2, depth)
  {
    hide ClosingQuote, PrintPieces;
    assert [q] + PrintPieces(body) + [q] == [q] + (PrintPieces(body) + [q]);
    HoldsParts(s, i, [q], PrintPieces(body) + [q]);
    assert s[i] == s[i..i + 1][0];
    StringIsClosed(s, i + 1, q, body);
  }

  /** Inside a block, printed code is passed over: no brace or quote in it is left unmatched. */
  lemma {:induction false} CodeIsSkipped(s: string, i: nat, code: Code, depth: nat)
    requires CommentFree(code) && Holds(s, i, Print(code)) && depth >= 1
    ensures BraceFrom(s, i, depth) == BraceFrom(s, i + |Print(code)|, depth)
    decreases code, 0
  {
    hide ClosingQuote, PrintPieces, BraceFrom;
    if code.End? {
    } else {
      var head := PrintHead(code);
      HoldsParts(s, i, head, Print(code.rest));
      match code {
        case Text(text, _) => TextIsSkipped(s, i, text, depth);
        case Str(q, body, _) =>
          StringIsSkipped(s, i, q, body, depth);
        case Block(inner, _) => BlockIsSkipped(s, i, inner, depth);
      }
      CodeIsSkipped(s, i + |head|, code.rest, depth);
    }
  }

  lemma {:induction false} BlockIsSkipped(s: string, i: nat, inner: Code, depth: nat)
    requires CommentFree(inner) && Holds(s, i, "{" + Print(inner) + "}")
    ensures BraceFrom(s, i, depth)
            == if depth == 0 then i + |Print(inner)| + 1 else BraceFrom(s, i + |Print(inner)| + 2, depth)
    decreases inner, 1
  {
    hide Print, CommentFree, ClosingQuote;
    assert "{" + Print(inner) + "}" == "{" + (Print(inner) + "}");
    HoldsParts(s, i, "{", Print(inner) + "}");
    HoldsParts(s, i + 1, Print(inner), "}");
    assert s[i] == s[i..i + 1][0];
    var close := i + 1 + |Print(inner)|;
    assert s[close] == s[close..close + 1][0];
    CodeIsSkipped(s, i + 1, inner, depth + 1);
  }

  /** The brace found for a printed block is its last character, whatever stands before and after the block. */
  lemma MatchBraceInvertsPrint(prefix: string, inner: Code, suffix: string)
    requires CommentFree(inner)
    ensures var block := "{" + Print(inner) + "}";
            BraceFrom(prefix + block + suffix, |prefix|, 0) == |prefix| + |block| - 1
  {
    var block := "{" + Print(inner) + "}";
    var s := prefix + block + suffix;
    assert s[|prefix|..|prefix| + |block|] == block;
    BlockIsSkipped(s, |prefix|, inner, 0);
  }

  // ---- The characters, spelled out ----

  /** One turn of the brace counter, character by character. */
  lemma BraceTurn(s: string, i: nat, depth: int)
    ensures i >= |s| ==> BraceFrom(s, i, depth) == |s| - 1
    ensures i < |s| && s[i] == '{' ==> BraceFrom(s, i, depth) == BraceFrom(s, i + 1, depth + 1)
    ensures i < |s| && s[i] == '}' ==>
              BraceFrom(s, i, depth) == if depth == 1 then i else BraceFrom(s, i + 1, depth - 1)
    ensures i < |s| && s[i] != '{' && s[i] != '}' && s[i] != '\'' && s[i] != '"' && s[i] != '`' ==>
              BraceFrom(s, i, depth) == BraceFrom(s, i + 1, depth)
  {
  }

  function PlainPieces(text: string): (r: seq<Piece>)
    ensures |r| == |text|
  {
    seq(|text|, i requires 0 <= i < |text| => Plain(text[i]))
  }

  /** The text of a literal: plain characters, an escape, and again plain characters. */
  lemma {:induction false} PlainPiecesPrint(text: string, more: seq<Piece>)
    ensures PrintPieces(PlainPieces(text) + more) == text + PrintPieces(more)
    decreases |text|
  {
    var pieces := PlainPieces(text) + more;
    if text == "" {
      assert pieces == more;
    } else {
      assert pieces[1..] == PlainPieces(text[1..]) + more && pieces[0] == Plain(text[0]);
      PlainPiecesPrint(text[1..], more);
    }
  }

  /**
   Apostrophes, quotation marks and backticks: a literal in a block is passed over with everything in it, other
   quotes, braces and escaped characters included.
   */
  lemma LiteralsAreSkipped(prefix: string, q: char, body: string, c: char, more: string, suffix: string)
    requires q == '\'' || q == '"' || q == '`'
    requires q !in body && '\\' !in body && q !in more && '\\' !in more
    ensures BraceFrom(prefix + "{" + [q] + body + [q] + "}" + suffix, |prefix|, 0) == |prefix| + |body| + 3
    ensures var escaped := body + ['\\', c] + more;
            BraceFrom(prefix + "{" + [q] + escaped + [q] + "}" + suffix, |prefix|, 0) == |prefix| + |escaped| + 3
  {
    hide BraceFrom, PrintPieces;
    EscapePrints(body, c, more);
    LiteralIsSkipped(prefix, q, body, PlainPieces(body), suffix);
    var pieces := PlainPieces(body) + ([Escaped(c)] + PlainPieces(more));
    assert WellEscaped(q, pieces);
    LiteralIsSkipped(prefix, q, body + ['\\', c] + more, pieces, suffix);
  }

  lemma EscapePrints(body: string, c: char, more: string)
    ensures PrintPieces(PlainPieces(body)) == body
    ensures PrintPieces(PlainPieces(body) + ([Escaped(c)] + PlainPieces(more))) == body + ['\\', c] + more
  {
    var tail := [Escaped(c)] + PlainPieces(more);
    PlainPiecesPrint(body, []);
    PlainPiecesPrint(body, tail);
    PlainPiecesPrint(more, []);
    assert PlainPieces(body) + [] == PlainPieces(body);
    assert PlainPieces(more) + [] == PlainPieces(more) == tail[1..];
    assert body + (['\\', c] + more) == body + ['\\', c] + more;
  }

  lemma LiteralIsSkipped(prefix: string, q: char, text: string, body: seq<Piece>, suffix: string)
    requires WellEscaped(q, body) && PrintPieces(body) == text
    ensures BraceFrom(prefix + "{" + [q] + text + [q] + "}" + suffix, |prefix|, 0) == |prefix| + |text| + 3
  {
    hide BraceFrom, WellEscaped, PrintPieces;
    var inner := Str(q, body, End);
    MatchBraceInvertsPrint(prefix, inner, suffix);
    assert Print(inner) == [q] + text + [q] + "" == [q] + text + [q];
    assert prefix + ("{" + Print(inner) + "}") + suffix == prefix + "{" + [q] + text + [q] + "}" + suffix;
  }

  /** The star of a block comment's opener may be that of its end: the scripts look for the end from the opener on. */
  lemma StarClosesAtOnce(rest: string)
    ensures Masked("/*/" + rest) == "   " + Masked(rest)
  {
    var s := "/*/" + rest;
    assert s[1..3] == "*/" && s[0..2] == "/*";
    assert IndexOf(s, "*/", 1) == 1;
    assert IndexOf(s, "*/", 0) == 1;
    assert s[3..] == rest && Spaces(3) == "   ";
  }

  /** Nothing else is blanked: outside comments every character stays. */
  lemma OtherCharactersStay(c: char, rest: string)
    ensures c != '/' || (rest != "" && rest[0] != '/' && rest[0] != '*') ==> Masked([c] + rest) == [c] + Masked(rest)
  {
    assert ([c] + rest)[1..] == rest;
  }
}
