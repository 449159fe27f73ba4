/**
 Counting the elements of fixture arrays in test sources: a bracket matcher finds where an array literal ends, and its
 elements are counted by their separating commas.
 */
module TestClaims {
  import opened Common

  predicate Opens(c: char) {
    c == '{' || c == '[' || c == '('
  }

  predicate Closes(c: char) {
    c == '}' || c == ']' || c == ')'
  }

  /** Brackets opened minus brackets closed, whatever their kinds. */
  function Depth(s: string): int {
    if s == "" then 0
    else
      var c := s[|s| - 1];
      Depth(s[..|s| - 1]) + if Opens(c) then 1 else if Closes(c) then -1 else 0
  }

  function TopCommas(s: string): nat {
    if s == "" then 0
    else
      var before := s[..|s| - 1];
      TopCommas(before) + if s[|s| - 1] == ',' && Depth(before) == 0 then 1 else 0
  }

  function CountOf(inner: string): nat {
    var trimmed := Trim(inner);
    if trimmed == "" then 0
    else if trimmed[|trimmed| - 1] == ',' then TopCommas(trimmed) else TopCommas(trimmed) + 1
  }

  method ElementCount(inner: string) returns (r: nat)
    ensures r == CountOf(inner)
  {
    var trimmed := Trim(inner);
    if trimmed == "" { return 0; }
    var depth := 0;
    var count := 1;
    for k := 0 to |trimmed|
      invariant depth == Depth(trimmed[..k]) && count == 1 + TopCommas(trimmed[..k])
    {
      var ch := trimmed[k];
      assert trimmed[..k + 1][..k] == trimmed[..k];
      if Opens(ch) {
        depth := depth + 1;
      } else if Closes(ch) {
        depth := depth - 1;
      } else if ch == ',' && depth == 0 {
        count := count + 1;
      }
    }
    assert trimmed[..|trimmed|] == trimmed;
    r := if trimmed[|trimmed| - 1] == ',' then count - 1 else count;
  }

  // ---- Finding the end of an array ----

  /** Where the depth returns to zero at a closing bracket, or the end of the text. */
  function MatchFrom(body: string, j: nat, depth: int): (end: nat)
    requires j <= |body|
    ensures j <= end <= |body| && (j < |body| && depth <= 0 ==> j < end)
    decreases |body| - j
  {
    if j == |body| then j
    else if Opens(body[j]) then MatchFrom(body, j + 1, depth + 1)
    else if Closes(body[j]) then if depth == 1 then j else MatchFrom(body, j + 1, depth - 1)
    else MatchFrom(body, j + 1, depth)
  }

  method FindEnd(body: string, open: nat) returns (j: nat)
    requires open <= |body|
    ensures j == MatchFrom(body, open, 0)
  {
    var depth := 0;
    j := open;
    while j < |body|
      invariant open <= j <= |body| && MatchFrom(body, open, 0) == MatchFrom(body, j, depth)
    {
      if Opens(body[j]) {
        depth := depth + 1;
      } else if Closes(body[j]) {
        depth := depth - 1;
        if depth == 0 { return; }
      }
      j := j + 1;
    }
  }

  /** The six brackets: three open, three close, and nothing else moves the depth. */
  lemma SixBrackets(s: string, c: char, body: string, j: nat, depth: int)
    ensures Depth(s + [c]) - Depth(s)
            == if c in "{[(" then 1 else if c in "}])" then -1 else 0
    ensures j < |body| ==>
              MatchFrom(body, j, depth)
              == if body[j] in "{[(" then MatchFrom(body, j + 1, depth + 1)
                 else if body[j] in "}])" then if depth == 1 then j else MatchFrom(body, j + 1, depth - 1)
                 else MatchFrom(body, j + 1, depth)
  {
    assert (s + [c])[..|s|] == s;
  }

  // ---- Finding the start of an array ----

  predicate WordChar(c: char) {
    'a' <= c <= 'z' || 'A' <= c <= 'Z' || '0' <= c <= '9' || c == '_'
  }

  predicate EndsWith(s: string, word: string) {
    |word| <= |s| && s[|s| - |word|..] == word
  }

  /** A text without the white space, and the one parenthesis in it, that may stand before an array's bracket. */
  function Stem(text: string): string {
    var t := TrimEnd(text);
    if t != "" && t[|t| - 1] == '(' then TrimEnd(t[..|t| - 1]) else t
  }

  /**
   The search pattern matches in `text` and the bracket after it, ending there: it asks for a call of one of five
   names, a label or an equals sign.  A word at the start of `text` begins there: searches start at 0 or at a bracket.
   */
  predicate Introduces(text: string) {
    StemIntroduces(Stem(text))
  }

  predicate StemIntroduces(stem: string) {
    var n := |stem|;
    || (n >= 1 && stem[n - 1] == '=')
    || (n >= 2 && stem[n - 1] == ':' && WordChar(stem[n - 2]))
    || EndsWith(stem, "mockResolvedValue") || EndsWith(stem, "mockResolvedValueOnce")
    || EndsWith(stem, "mockReturnValue") || EndsWith(stem, "mockReturnValueOnce")
    || EndsWith(stem, "resolves.toEqual")
  }

  /** What the search pattern asks for before white space and a parenthesis, character by character. */
  predicate Introducer(core: string) {
    || core == "mockResolvedValue" || core == "mockResolvedValueOnce"
    || core == "mockReturnValue" || core == "mockReturnValueOnce" || core == "resolves.toEqual" || core == "="
    || (|core| == 2 && core[1] == ':'
        && ('a' <= core[0] <= 'z' || 'A' <= core[0] <= 'Z' || '0' <= core[0] <= '9' || core[0] == '_'))
  }

  /** The text ends with an introducer, white space, perhaps one parenthesis, and white space. */
  predicate EndsAs(text: string, before: string, core: string, pad: string, paren: string, more: string) {
    text == before + core + pad + paren + more && Introducer(core) && Blank(pad) && Blank(more)
    && (paren == "" || paren == "(")
  }

  /** The backwards reading of the text is the search pattern. */
  lemma IntroducesIsThePattern(text: string)
    ensures Introduces(text) <==> exists before, core, pad, paren, more :: EndsAs(text, before, core, pad, paren, more)
  {
    hide Introduces;
    if Introduces(text) {
      var before, core, pad, paren, more := IntroducesSplits(text);
      assert EndsAs(text, before, core, pad, paren, more);
    }
    if before, core, pad, paren, more :| EndsAs(text, before, core, pad, paren, more) {
      PatternIntroduces(text, before, core, pad, paren, more);
    }
  }

  lemma StemSplits(text: string) returns (pad: string, paren: string, more: string)
    ensures Blank(pad) && Blank(more) && (paren == "" || paren == "(") && text == Stem(text) + pad + paren + more
  {
    more := TrimEndSplit(text);
    var t := TrimEnd(text);
    if t != "" && t[|t| - 1] == '(' {
      pad := TrimEndSplit(t[..|t| - 1]);
      paren := "(";
      assert t == t[..|t| - 1] + "(";
    } else {
      pad, paren := "", "";
    }
  }

  lemma IntroducesSplits(text: string)
    returns (before: string, core: string, pad: string, paren: string, more: string)
    requires Introduces(text)
    ensures EndsAs(text, before, core, pad, paren, more)
  {
    pad, paren, more := StemSplits(text);
    core := StemEnds(text);
    hide Stem, Introduces, Introducer;
    var stem := Stem(text);
    before := stem[..|stem| - |core|];
    assert stem == before + core;
  }

  lemma StemEnds(text: string) returns (core: string)
    requires Introduces(text)
    ensures EndsWith(Stem(text), core) && Introducer(core)
  {
    var stem := Stem(text);
    var n := |stem|;
    hide Stem;
    if n >= 1 && stem[n - 1] == '=' {
      core := "=";
    } else if n >= 2 && stem[n - 1] == ':' && WordChar(stem[n - 2]) {
      core := [stem[n - 2], ':'];
    } else {
      hide EndsWith;
      core := if EndsWith(stem, "mockResolvedValue") then "mockResolvedValue"
              else if EndsWith(stem, "mockResolvedValueOnce") then "mockResolvedValueOnce"
              else if EndsWith(stem, "mockReturnValue") then "mockReturnValue"
              else if EndsWith(stem, "mockReturnValueOnce") then "mockReturnValueOnce"
              else "resolves.toEqual";
    }
  }

  lemma StemIs(stem: string, pad: string, paren: string, more: string)
    requires stem != "" && !WhiteSpace(stem[|stem| - 1]) && stem[|stem| - 1] != '('
    requires Blank(pad) && Blank(more) && (paren == "" || paren == "(")
    ensures Stem(stem + pad + paren + more) == stem
  {
    TrimEndPadding(stem + pad + paren, more);
    TrimEndPadding(stem, pad);
    if paren == "" {
      assert stem + pad + paren == stem + pad;
    } else {
      assert (stem + pad + paren)[..|stem + pad|] == stem + pad;
    }
  }

  lemma PatternIntroduces(text: string, before: string, core: string, pad: string, paren: string, more: string)
    requires EndsAs(text, before, core, pad, paren, more)
    ensures Introduces(text)
  {
    hide Introducer, StemIntroduces, Stem, WhiteSpace;
    CoreIntroduces(before, core);
    StemIs(before + core, pad, paren, more);
  }

  lemma CoreIntroduces(before: string, core: string)
    requires Introducer(core)
    ensures var stem := before + core;
            StemIntroduces(stem) && stem != "" && !WhiteSpace(stem[|stem| - 1]) && stem[|stem| - 1] != '('
  {
    CoreIsNotEmpty(core);
    var stem := before + core;
    var n := |stem|;
    assert stem[n - |core|..] == core && stem[n - 1] == core[|core| - 1];
    if |core| == 2 {
      assert stem[n - 2] == core[0];
    }
    assert EndsWith(stem, core);
    hide EndsWith;
  }

  lemma CoreIsNotEmpty(core: string)
    requires Introducer(core)
    ensures core != "" && !WhiteSpace(core[|core| - 1]) && core[|core| - 1] != '('
  {
  }

  /**
   The bracket of the next fixture array: a match has something before its bracket and no other bracket in it, so the
   leftmost match is this one.
   */
  function NextFrom(body: string, start: nat, o: nat): (r: Option<nat>)
    requires start <= o <= |body|
    ensures r.Some? ==> start < r.value < |body|
    decreases |body| - o
  {
    if o == |body| then None
    else if body[o] == '[' && start < o && Introduces(body[start..o]) then Some(o)
    else NextFrom(body, start, o + 1)
  }

  function CountsFrom(body: string, lastIndex: nat): seq<nat>
    requires lastIndex <= |body|
    decreases |body| - lastIndex
  {
    var m := NextFrom(body, lastIndex, lastIndex);
    if m.None? then []
    else
      var j := MatchFrom(body, m.value, 0);
      [CountOf(body[m.value + 1..j])] + CountsFrom(body, j)
  }

  lemma Regroup(counts: seq<nat>, count: nat, rest: seq<nat>)
    ensures counts + ([count] + rest) == counts + [count] + rest
  {
  }

  method FixtureArrayCounts(body: string) returns (counts: seq<nat>)
    ensures counts == CountsFrom(body, 0)
  {
    hide NextFrom, MatchFrom, CountOf;
    counts := [];
    var lastIndex := 0;
    var m := NextFrom(body, lastIndex, lastIndex);
    while m.Some?
      invariant lastIndex <= |body| && m == NextFrom(body, lastIndex, lastIndex)
      invariant counts + CountsFrom(body, lastIndex) == CountsFrom(body, 0)
      decreases |body| - lastIndex
    {
      var open := m.value;
      var j := FindEnd(body, open);
      var count := ElementCount(body[open + 1..j]);
      Regroup(counts, count, CountsFrom(body, j));
      counts := counts + [count];
      lastIndex := j;
      m := NextFrom(body, lastIndex, lastIndex);
    }
  }

  // ---- Concatenation and padding ----

  lemma {:induction false} DepthConcat(a: string, b: string)
    ensures Depth(a + b) == Depth(a) + Depth(b)
    decreases |b|
  {
    if b == "" {
      assert a + b == a;
    } else {
      assert (a + b)[..|a + b| - 1] == a + b[..|b| - 1];
      DepthConcat(a, b[..|b| - 1]);
    }
  }

  lemma {:induction false} TopCommasConcat(a: string, b: string)
    requires Depth(a) == 0
    ensures TopCommas(a + b) == TopCommas(a) + TopCommas(b)
    decreases |b|
  {
    if b == "" {
      assert a + b == a;
    } else {
      var init := b[..|b| - 1];
      assert (a + b)[..|a + b| - 1] == a + init;
      TopCommasConcat(a, init);
      DepthConcat(a, init);
    }
  }

  lemma {:induction false} BlankHasNone(s: string)
    requires Blank(s)
    ensures Depth(s) == 0 && TopCommas(s) == 0
    decreases |s|
  {
    if s == "" {
    } else {
      BlankHasNone(s[..|s| - 1]);
    }
  }

  lemma PaddingCountsNothing(before: string, s: string, after: string)
    requires Blank(before) && Blank(after) && Depth(before + s + after) == 0
    ensures TopCommas(before + s + after) == TopCommas(s) && Depth(s) == 0
  {
    BlankHasNone(before);
    BlankHasNone(after);
    DepthConcat(before, s);
    DepthConcat(before + s, after);
    TopCommasConcat(before, s);
    TopCommasConcat(before + s, after);
  }

  /** Trimming cuts behind the last character that is not blank. */
  lemma TrimEndsAt(a: string, c: char, pad: string)
    requires Blank(pad) && !WhiteSpace(c)
    ensures var t := Trim(a + [c] + pad); t != "" && t[|t| - 1] == c
  {
    var s := a + [c] + pad;
    var before, after := TrimSplit(s);
    var t := Trim(s);
    assert s[|a|] == c;
    var last := |before| + |t| - 1;
    assert last >= 0 && s[last] == t[|t| - 1];
    forall i | |a| < i < |s| ensures WhiteSpace(s[i]) { assert s[i] == pad[i - |a| - 1]; }
    forall i | last < i < |s| ensures WhiteSpace(s[i]) { assert s[i] == after[i - last - 1]; }
  }

  // ---- Array literals ----

  /** The text of one element, padding included. */
  predicate Element(s: string) {
    !Blank(s) && Depth(s) == 0 && TopCommas(s) == 0
  }

  function Join(elements: seq<string>): string
    requires elements != []
  {
    if |elements| == 1 then elements[0] else Join(elements[..|elements| - 1]) + "," + elements[|elements| - 1]
  }

  /** What may follow the last element: padding, or a comma and padding. */
  predicate Tail(tail: string, elements: seq<string>) {
    Blank(tail) || (elements != [] && tail[0] == ',' && Blank(tail[1..]))
  }

  function Inner(elements: seq<string>, tail: string): string {
    if elements == [] then tail else Join(elements) + tail
  }

  lemma {:induction false} JoinCommas(elements: seq<string>)
    requires elements != [] && forall i :: 0 <= i < |elements| ==> Element(elements[i])
    ensures Depth(Join(elements)) == 0 && TopCommas(Join(elements)) == |elements| - 1
    decreases |elements|
  {
    if |elements| > 1 {
      var before, last := elements[..|elements| - 1], elements[|elements| - 1];
      JoinCommas(before);
      CommaAppended(Join(before));
      DepthConcat(Join(before) + ",", last);
      TopCommasConcat(Join(before) + ",", last);
    }
  }

  lemma CommaAppended(s: string)
    requires Depth(s) == 0
    ensures Depth(s + ",") == 0 && TopCommas(s + ",") == TopCommas(s) + 1
  {
    assert (s + ",")[..|s|] == s;
  }

  /** An element does not end in a comma. */
  lemma ElementEnds(s: string) returns (a: string, c: char, pad: string)
    requires Element(s)
    ensures s == a + [c] + pad && Blank(pad) && !WhiteSpace(c) && c != ','
  {
    var before, after := TrimSplit(s);
    var t := Trim(s);
    PaddingCountsNothing(before, t, after);
    a, c, pad := before + t[..|t| - 1], t[|t| - 1], after;
    assert t == t[..|t| - 1] + [c];
    DepthConcat(t[..|t| - 1], [c]);
    assert [c][..0] == "";
    assert c == ',' ==> Depth([c]) == 0;
  }

  lemma JoinEnds(elements: seq<string>) returns (a: string, c: char, pad: string)
    requires elements != [] && forall i :: 0 <= i < |elements| ==> Element(elements[i])
    ensures Join(elements) == a + [c] + pad && Blank(pad) && !WhiteSpace(c) && c != ','
  {
    var last := elements[|elements| - 1];
    a, c, pad := ElementEnds(last);
    if |elements| > 1 {
      var start := Join(elements[..|elements| - 1]) + ",";
      assert Join(elements) == start + last == (start + a) + [c] + pad;
      a := start + a;
    }
  }

  /** Counting undoes joining: with or without a trailing comma, whatever the padding and the nesting. */
  lemma CountOfJoin(elements: seq<string>, tail: string)
    requires (forall i :: 0 <= i < |elements| ==> Element(elements[i])) && Tail(tail, elements)
    ensures CountOf(Inner(elements, tail)) == |elements|
  {
    var inner := Inner(elements, tail);
    if elements == [] {
      TrimBlank(tail);
    } else {
      hide Join, Depth, TopCommas, Trim;
      JoinCommas(elements);
      var a, c, pad := JoinEnds(elements);
      var comma := !Blank(tail);
      if comma {
        assert tail == "," + tail[1..];
        assert inner == Join(elements) + [','] + tail[1..];
        TrimEndsAt(Join(elements), ',', tail[1..]);
        CommaAppended(Join(elements));
        BlankAppended(Join(elements) + ",", tail[1..]);
        assert inner == Join(elements) + "," + tail[1..];
      } else {
        assert inner == a + [c] + (pad + tail);
        TrimEndsAt(a, c, pad + tail);
        BlankAppended(Join(elements), tail);
      }
      var before, after := TrimSplit(inner);
      PaddingCountsNothing(before, Trim(inner), after);
    }
  }

  lemma BlankAppended(s: string, pad: string)
    requires Blank(pad) && Depth(s) == 0
    ensures Depth(s + pad) == 0 && TopCommas(s + pad) == TopCommas(s)
  {
    BlankHasNone(pad);
    DepthConcat(s, pad);
    TopCommasConcat(s, pad);
  }

  // ---- Nesting ----

  ghost predicate Nested(s: string) {
    Depth(s) == 0 && forall k :: 0 <= k <= |s| ==> Depth(s[..k]) >= 0
  }

  lemma NestedConcat(a: string, b: string)
    requires Nested(a) && Nested(b)
    ensures Nested(a + b)
  {
    DepthConcat(a, b);
    forall k | 0 <= k <= |a + b|
      ensures Depth((a + b)[..k]) >= 0
    {
      if k <= |a| {
        assert (a + b)[..k] == a[..k];
      } else {
        assert (a + b)[..k] == a + b[..k - |a|];
        DepthConcat(a, b[..k - |a|]);
      }
    }
  }

  lemma BlankIsNested(s: string)
    requires Blank(s)
    ensures Nested(s)
  {
    forall k | 0 <= k <= |s| ensures Depth(s[..k]) == 0 { BlankHasNone(s[..k]); }
    assert s[..|s|] == s;
  }

  lemma CommaIsNested()
    ensures Nested(",")
  {
    assert ","[..0] == "" && ","[..1] == ",";
  }

  lemma {:induction false} JoinIsNested(elements: seq<string>)
    requires elements != [] && forall i :: 0 <= i < |elements| ==> Nested(elements[i])
    ensures Nested(Join(elements))
    decreases |elements|
  {
    if |elements| > 1 {
      hide Nested;
      var before, last := elements[..|elements| - 1], elements[|elements| - 1];
      JoinIsNested(before);
      CommaIsNested();
      NestedConcat(Join(before), ",");
      NestedConcat(Join(before) + ",", last);
    }
  }

  lemma InnerIsNested(elements: seq<string>, tail: string)
    requires (forall i :: 0 <= i < |elements| ==> Nested(elements[i])) && Tail(tail, elements)
    ensures Nested(Inner(elements, tail))
  {
    hide Nested;
    if Blank(tail) {
      BlankIsNested(tail);
    } else {
      CommaIsNested();
      BlankIsNested(tail[1..]);
      NestedConcat(",", tail[1..]);
      assert tail == "," + tail[1..];
    }
    if elements != [] {
      JoinIsNested(elements);
      NestedConcat(Join(elements), tail);
    }
  }

  lemma {:induction false} MatchSkips(body: string, from: nat, s: string, k: nat)
    requires from + |s| <= |body| && body[from..from + |s|] == s && Nested(s) && k <= |s|
    ensures MatchFrom(body, from, 1) == MatchFrom(body, from + k, 1 + Depth(s[..k]))
    decreases k
  {
    if k == 0 {
    } else {
      MatchSkips(body, from, s, k - 1);
      assert s[..k][..k - 1] == s[..k - 1] && s[k - 1] == body[from + k - 1];
    }
  }

  /** The matcher finds the closing bracket of an array, through any nesting. */
  lemma MatchFindsTheEnd(before: string, inner: string, after: string)
    requires Nested(inner)
    ensures MatchFrom(before + "[" + inner + "]" + after, |before|, 0) == |before| + 1 + |inner|
  {
    var body := before + "[" + inner + "]" + after;
    assert body[|before|] == '[' && body[|before| + 1..|before| + 1 + |inner|] == inner;
    assert inner[..|inner|] == inner && body[|before| + 1 + |inner|] == ']';
    MatchSkips(body, |before| + 1, inner, |inner|);
  }

  // ---- A whole test body ----

  /** An array literal of a test body after the text `gap`. */
  datatype Fixture = Fixture(gap: string, elements: seq<string>, tail: string)

  /** No bracket of the text begins a fixture array. */
  predicate Quiet(text: string) {
    forall k :: 0 <= k < |text| && text[k] == '[' ==> !Introduces(text[..k])
  }

  /** The gap introduces the array, and no bracket before it begins one. */
  ghost predicate WellFormed(f: Fixture) {
    && Quiet(f.gap) && Introduces(f.gap)
    && Tail(f.tail, f.elements) && forall i :: 0 <= i < |f.elements| ==> Element(f.elements[i]) && Nested(f.elements[i])
  }

  function Open(f: Fixture): string {
    f.gap + "[" + Inner(f.elements, f.tail)
  }

  function Body(fixtures: seq<Fixture>, rest: string): string {
    if fixtures == [] then rest else Open(fixtures[0]) + "]" + Body(fixtures[1..], rest)
  }

  function Sizes(fixtures: seq<Fixture>): (sizes: seq<nat>)
    ensures |sizes| == |fixtures| && forall i :: 0 <= i < |sizes| ==> sizes[i] == |fixtures[i].elements|
  {
    seq(|fixtures|, i requires 0 <= i < |fixtures| => |fixtures[i].elements|)
  }

  lemma {:induction false} TrimEndAfterBracket(text: string)
    ensures TrimEnd("]" + text) == "]" + TrimEnd(text)
    decreases |text|
  {
    if text == "" {
      assert "]" + text == "]";
    } else {
      assert ("]" + text)[..|text|] == "]" + text[..|text| - 1];
      TrimEndAfterBracket(text[..|text| - 1]);
    }
  }

  lemma StemAfterBracket(text: string)
    ensures Stem("]" + text) == "]" + Stem(text)
  {
    TrimEndAfterBracket(text);
    var t := TrimEnd(text);
    if t != "" {
      assert ("]" + t)[..|t|] == "]" + t[..|t| - 1];
      TrimEndAfterBracket(t[..|t| - 1]);
    }
  }

  lemma EndsWithAfterBracket(s: string, word: string)
    requires word != "" && word[0] != ']'
    ensures EndsWith("]" + s, word) <==> EndsWith(s, word)
  {
    var t := "]" + s;
    if |word| <= |s| {
      assert t[|t| - |word|..] == s[|s| - |word|..];
    } else if |word| == |t| {
      assert t[0] != word[0];
    }
  }

  /** The bracket that ended the last array introduces nothing. */
  lemma IntroducesAfterBracket(text: string)
    ensures Introduces("]" + text) <==> Introduces(text)
  {
    StemAfterBracket(text);
    var stem := Stem(text);
    hide Stem;
    assert !WordChar(']');
    EndsWithAfterBracket(stem, "mockResolvedValue");
    EndsWithAfterBracket(stem, "mockResolvedValueOnce");
    EndsWithAfterBracket(stem, "mockReturnValue");
    EndsWithAfterBracket(stem, "mockReturnValueOnce");
    EndsWithAfterBracket(stem, "resolves.toEqual");
  }

  /** Where a search begins: at the start of the body, or at the bracket of the array before. */
  predicate Begins(body: string, done: string, start: nat) {
    done <= body && ((done == "" && start == 0) || (start + 1 == |done| && done[start] == ']'))
  }

  lemma IntroducedFromStart(body: string, done: string, start: nat, o: nat)
    requires Begins(body, done, start) && |done| <= o <= |body|
    ensures Introduces(body[start..o]) <==> Introduces(body[|done|..o])
  {
    if done == "" {
    } else {
      assert body[start] == done[start];
      assert body[start..o] == "]" + body[|done|..o];
      IntroducesAfterBracket(body[|done|..o]);
    }
  }

  /** The search passes over quiet text. */
  lemma {:induction false} SearchPasses(body: string, done: string, start: nat, text: string, k: nat)
    requires Begins(body, done, start) && done + text <= body && Quiet(text) && k <= |text|
    ensures start <= |done| && NextFrom(body, start, start) == NextFrom(body, start, |done| + k)
    decreases k
  {
    hide Introduces;
    if k == 0 {
      if done != "" { assert body[start] == done[start] == ']'; }
    } else {
      var o := |done| + k - 1;
      SearchPasses(body, done, start, text, k - 1);
      IntroducedFromStart(body, done, start, o);
      assert body[|done|..o] == (done + text)[|done|..o] == text[..k - 1];
      assert body[o] == (done + text)[o];
      assert !Introduces(body[start..o]) || body[o] != '[';
    }
  }

  lemma NothingIntroduces()
    ensures !Introduces("")
  {
  }

  lemma FixtureIsFound(body: string, done: string, start: nat, f: Fixture)
    requires Begins(body, done, start) && done + Open(f) <= body && Quiet(f.gap) && Introduces(f.gap)
    ensures start <= |body| && NextFrom(body, start, start) == Some(|done| + |f.gap|)
  {
    hide Introduces, Inner;
    var o := |done| + |f.gap|;
    assert done + f.gap <= body by {
      assert (done + Open(f))[..o] == done + f.gap;
    }
    NothingIntroduces();
    SearchPasses(body, done, start, f.gap, |f.gap|);
    IntroducedFromStart(body, done, start, o);
    assert body[|done|..o] == (done + f.gap)[|done|..o] == f.gap;
    assert body[o] == (done + Open(f))[o] == Open(f)[|f.gap|] == '[';
  }

  lemma FixtureIsCounted(done: string, f: Fixture, after: string)
    requires WellFormed(f)
    ensures var body := done + Open(f) + "]" + after;
            var open := |done| + |f.gap|;
            && MatchFrom(body, open, 0) == |done| + |Open(f)|
            && body[open + 1..|done| + |Open(f)|] == Inner(f.elements, f.tail)
            && CountOf(Inner(f.elements, f.tail)) == |f.elements|
  {
    hide MatchFrom, CountOf, Inner, Nested, Element, Introduces;
    var inner := Inner(f.elements, f.tail);
    InnerIsNested(f.elements, f.tail);
    CountOfJoin(f.elements, f.tail);
    MatchFindsTheEnd(done + f.gap, inner, after);
    assert done + Open(f) + "]" + after == (done + f.gap) + "[" + inner + "]" + after;
  }

  lemma FixtureStep(body: string, done: string, start: nat, fixtures: seq<Fixture>, rest: string)
    requires fixtures != [] && WellFormed(fixtures[0]) && Begins(body, done, start)
    requires body == done + Body(fixtures, rest)
    ensures var f := fixtures[0];
            var done' := done + Open(f) + "]";
            && body == done' + Body(fixtures[1..], rest) && Begins(body, done', |done + Open(f)|)
            && start <= |body| && |done + Open(f)| <= |body|
            && CountsFrom(body, start) == [|f.elements|] + CountsFrom(body, |done + Open(f)|)
  {
    hide MatchFrom, CountOf, Inner, Introduces, NextFrom, Nested, Element, Quiet;
    var f := fixtures[0];
    var later := Body(fixtures[1..], rest);
    assert body == done + Open(f) + "]" + later == (done + Open(f) + "]") + later;
    assert done + Open(f) <= body;
    FixtureIsCounted(done, f, later);
    FixtureIsFound(body, done, start, f);
  }

  lemma SizesStep(fixtures: seq<Fixture>)
    requires fixtures != []
    ensures Sizes(fixtures) == [|fixtures[0].elements|] + Sizes(fixtures[1..])
  {
  }

  lemma {:induction false} FixturesAreCounted(body: string, done: string, start: nat, fixtures: seq<Fixture>,
                                              rest: string)
    requires (forall i :: 0 <= i < |fixtures| ==> WellFormed(fixtures[i])) && Quiet(rest)
    requires body == done + Body(fixtures, rest) && Begins(body, done, start)
    ensures start <= |body| && CountsFrom(body, start) == Sizes(fixtures)
    decreases |fixtures|
  {
    hide Open, WellFormed, CountsFrom, Sizes, Quiet, Begins;
    if fixtures == [] {
      NoneLeft(body, done, start, rest, fixtures);
    } else {
      var f := fixtures[0];
      FixtureStep(body, done, start, fixtures, rest);
      FixturesAreCounted(body, done + Open(f) + "]", |done + Open(f)|, fixtures[1..], rest);
      SizesStep(fixtures);
    }
  }

  lemma NoneLeft(body: string, done: string, start: nat, rest: string, fixtures: seq<Fixture>)
    requires Begins(body, done, start) && Quiet(rest) && fixtures == [] && body == done + Body(fixtures, rest)
    ensures start <= |body| && CountsFrom(body, start) == Sizes(fixtures)
  {
    hide Introduces, Quiet;
    SearchPasses(body, done, start, rest, |rest|);
  }

  /** Every fixture array of a body is found and counted right, in order, and nothing else is counted. */
  lemma EveryFixtureIsCounted(fixtures: seq<Fixture>, rest: string)
    requires (forall i :: 0 <= i < |fixtures| ==> WellFormed(fixtures[i])) && Quiet(rest)
    ensures CountsFrom(Body(fixtures, rest), 0) == Sizes(fixtures)
  {
    assert "" + Body(fixtures, rest) == Body(fixtures, rest);
    FixturesAreCounted(Body(fixtures, rest), "", 0, fixtures, rest);
  }
}
