/**
 The wildcard matcher of the event bus: a topic pattern is compiled to the source text of a regular expression by
 two string rewrites, and the topic is tested against it.  The regular expressions are read and run here as
 ECMA-262 section 22.2 prescribes, for the characters that the rewrites can produce.
 */
module TopicMatcher {
  import opened Common

  predicate Special(c: char) {
    c == '.' || c == '+' || c == '^' || c == '$' || c == '{' || c == '}' || c == '(' || c == ')' || c == '|'
    || c == '[' || c == ']' || c == '\\'
  }

  /** The text begins with the three characters `\.*`. */
  predicate EscapedWildcard(text: string) {
    |text| >= 3 && text[0] == '\\' && text[1] == '.' && text[2] == '*'
  }

  /** The pattern begins with `.*`. */
  predicate Wildcard(pattern: string) {
    |pattern| >= 2 && pattern[0] == '.' && pattern[1] == '*'
  }

  /** Step 1: a backslash before every special character. */
  function Escape(pattern: string): string {
    if pattern == "" then ""
    else (if Special(pattern[0]) then ['\\', pattern[0]] else [pattern[0]]) + Escape(pattern[1..])
  }

  /** Step 2: every `\.*`, from the left, becomes `\..+`. */
  function Rewrite(escaped: string): string {
    if escaped == "" then ""
    else if EscapedWildcard(escaped) then "\\..+" + Rewrite(escaped[3..])
    else [escaped[0]] + Rewrite(escaped[1..])
  }

  // ---- Regular expressions ----

  datatype Atom = Any | Char(c: char)

  datatype Repeat = One | Opt | Star | Plus

  datatype Item = Item(atom: Atom, repeat: Repeat)

  function ReadRepeat(text: string): Repeat {
    if text == "" then One
    else if text[0] == '*' then Star
    else if text[0] == '+' then Plus
    else if text[0] == '?' then Opt
    else One
  }

  /** The characters a quantifier takes: none, one, or two when a `?` makes it lazy. */
  function RepeatLength(text: string): (n: nat)
    ensures n <= |text|
  {
    if ReadRepeat(text) == One then 0 else if |text| > 1 && text[1] == '?' then 2 else 1
  }

  /** The terms of a pattern, or None for a syntax error. */
  function Parse(text: string): Option<seq<Item>>
    decreases |text|
  {
    if text == "" then Some([])
    else if text[0] == '*' || text[0] == '+' || text[0] == '?' || text == "\\" then None
    else
      var atom := if text[0] == '\\' then Char(text[1]) else if text[0] == '.' then Any else Char(text[0]);
      var rest := text[if text[0] == '\\' then 2 else 1..];
      match Parse(rest[RepeatLength(rest)..])
      case None => None
      case Some(items) => Some([Item(atom, ReadRepeat(rest))] + items)
  }

  predicate LineTerminator(c: char) {
    c == '\n' || c == '\r' || c == '\U{2028}' || c == '\U{2029}'
  }

  predicate Takes(atom: Atom, c: char) {
    match atom
    case Any => !LineTerminator(c)
    case Char(d) => c == d
  }

  /** The terms match the whole text. */
  predicate Accepts(items: seq<Item>, text: string)
    decreases |items| + |text|
  {
    if items == [] then text == ""
    else
      var one := text != "" && Takes(items[0].atom, text[0]);
      match items[0].repeat
      case One => one && Accepts(items[1..], text[1..])
      case Opt => Accepts(items[1..], text) || (one && Accepts(items[1..], text[1..]))
      case Star => Accepts(items[1..], text) || (one && Accepts(items, text[1..]))
      case Plus => one && (Accepts(items[1..], text[1..]) || Accepts(items, text[1..]))
  }

  datatype SyntaxError = SyntaxError

  /** Whether a subscription to `pattern` receives `topic`. */
  function Matches(pattern: string, topic: string): Result<bool, SyntaxError> {
    if pattern == topic then Ok(true)
    else if pattern == "*" then Ok(true)
    else Regex(pattern, topic)
  }

  /** The slow path alone. */
  function Regex(pattern: string, topic: string): Result<bool, SyntaxError> {
    match Parse(Rewrite(Escape(pattern)))
    case None => Err(SyntaxError)
    case Some(items) => Ok(Accepts(items, topic))
  }

  // ---- What a pattern means ----

  predicate SingleLine(text: string) {
    forall i :: 0 <= i < |text| ==> !LineTerminator(text[i])
  }

  /**
   The glob: `.*` stands for a dot and one or more characters, everything else for itself.  With `oneLine` the
   characters of a wildcard are not line terminators.
   */
  ghost predicate Glob(pattern: string, topic: string, oneLine: bool)
    decreases |pattern|
  {
    if pattern == "" then topic == ""
    else if Wildcard(pattern) then
      exists k :: 2 <= k <= |topic| && topic[0] == '.' && (oneLine ==> SingleLine(topic[1..k]))
                  && Glob(pattern[2..], topic[k..], oneLine)
    else topic != "" && topic[0] == pattern[0] && Glob(pattern[1..], topic[1..], oneLine)
  }

  predicate StarFollowsDot(pattern: string, i: nat)
    requires i < |pattern|
  {
    pattern[i] != '?' && (pattern[i] == '*' ==> i > 0 && pattern[i - 1] == '.')
  }

  /** Every `*` follows a dot, and there is no `?`, which the first rewrite leaves alone. */
  predicate WellFormed(pattern: string) {
    forall i :: 0 <= i < |pattern| ==> StarFollowsDot(pattern, i)
  }

  lemma WellFormedTail(pattern: string, k: nat)
    requires WellFormed(pattern) && 0 < k <= |pattern|
    requires k < |pattern| && pattern[k] == '*' ==> pattern[k - 1] != '.'
    ensures WellFormed(pattern[k..])
  {
    forall i | 0 <= i < |pattern[k..]|
      ensures StarFollowsDot(pattern[k..], i)
    {
      assert StarFollowsDot(pattern, k + i);
    }
  }

  // ---- The compiler is correct ----

  /** The two rewrites in one pass over the pattern. */
  function Compile(pattern: string): (text: string)
    ensures pattern == "" <==> text == ""
    ensures text != "" ==> text[0] != '+' && (text[0] == '*' <==> pattern[0] == '*')
                           && (text[0] == '?' <==> pattern[0] == '?')
  {
    if pattern == "" then ""
    else if Wildcard(pattern) then "\\..+" + Compile(pattern[2..])
    else (if Special(pattern[0]) then ['\\', pattern[0]] else [pattern[0]]) + Compile(pattern[1..])
  }

  lemma {:induction false} RewritesFuse(pattern: string)
    ensures Rewrite(Escape(pattern)) == Compile(pattern)
    decreases |pattern|
  {
    if pattern == "" {
    } else {
      var c, tail, whole := pattern[0], Escape(pattern[1..]), Escape(pattern);
      EscapeHead(pattern[1..]);
      RewritesFuse(pattern[1..]);
      if Wildcard(pattern) {
        RewritesFuse(pattern[2..]);
        assert pattern[1..][1..] == pattern[2..];
        assert whole[3..] == Escape(pattern[2..]);
      } else if Special(c) {
        assert whole[1..] == [c] + tail && whole[1..][1..] == tail;
        assert !EscapedWildcard(whole) && !EscapedWildcard(whole[1..]);
        assert Rewrite(whole) == ['\\'] + ([c] + Rewrite(tail)) == ['\\', c] + Rewrite(tail);
      } else {
        assert whole[1..] == tail;
      }
    }
  }

  /** No character of these that the reader takes for itself, but a regular expression would not, is left bare. */
  lemma {:induction false} SyntaxIsEscaped(pattern: string, i: nat)
    ensures var text := Compile(pattern);
            i < |text| && text[i] in "^${}()|[]" ==> i > 0 && text[i - 1] == '\\'
    decreases |pattern|
  {
    var text := Compile(pattern);
    if pattern == "" || i >= |text| {
    } else if Wildcard(pattern) {
      var n := |"\\..+"|;
      if i >= n {
        assert text[i] == Compile(pattern[2..])[i - n];
        SyntaxIsEscaped(pattern[2..], i - n);
      }
    } else {
      var n := if Special(pattern[0]) then 2 else 1;
      if i >= n {
        assert text[i] == Compile(pattern[1..])[i - n];
        SyntaxIsEscaped(pattern[1..], i - n);
      }
    }
  }

  /** No escaped text begins with a bare special character, and one begins with `*` only if its pattern does. */
  lemma EscapeHead(pattern: string)
    ensures Escape(pattern) != "" ==> pattern != "" && Escape(pattern)[0] != '.'
    ensures Escape(pattern) != "" && Escape(pattern)[0] == '*' ==> pattern[0] == '*'
  {
  }

  /** The terms a well-formed pattern compiles to. */
  function Items(pattern: string): seq<Item> {
    if pattern == "" then []
    else if Wildcard(pattern) then [Item(Char('.'), One), Item(Any, Plus)] + Items(pattern[2..])
    else [Item(Char(pattern[0]), One)] + Items(pattern[1..])
  }

  lemma CompileHead(pattern: string)
    requires WellFormed(pattern)
    ensures ReadRepeat(Compile(pattern)) == One && RepeatLength(Compile(pattern)) == 0
  {
    if pattern != "" {
      assert StarFollowsDot(pattern, 0);
    }
  }

  /** A character that stands for itself, with the quantifier after it, is one term. */
  lemma ParseAtom(c: char, tail: string)
    requires c != '*' && c != '?'
    ensures var text := (if Special(c) then ['\\', c] else [c]) + tail;
            var more := Parse(tail[RepeatLength(tail)..]);
            Parse(text) == if more.Some? then Some([Item(Char(c), ReadRepeat(tail))] + more.value) else None
  {
    var text := (if Special(c) then ['\\', c] else [c]) + tail;
    if Special(c) {
      assert text[2..] == tail && text[1] == c && text != "\\";
    } else {
      assert text[1..] == tail && text[0] == c && c != '\\' && c != '.';
    }
  }

  /** A wildcard's `+`, made lazy by a `?` after the wildcard. */
  lemma ParsePlus(tail: string)
    ensures var more := Parse(if tail != "" && tail[0] == '?' then tail[1..] else tail);
            Parse(".+" + tail) == if more.Some? then Some([Item(Any, Plus)] + more.value) else None
  {
    var text, plus := ".+" + tail, "+" + tail;
    assert text[1..] == plus && plus[1..] == tail;
    assert tail != "" && tail[0] == '?' ==> plus[2..] == tail[1..];
  }

  lemma ParseWildcard(rest: string, items: seq<Item>)
    requires ReadRepeat(rest) == One && Parse(rest) == Some(items)
    ensures Parse("\\..+" + rest) == Some([Item(Char('.'), One), Item(Any, Plus)] + items)
  {
    hide Parse;
    ParsePlus(rest);
    ParseAtom('.', ".+" + rest);
    assert ['\\', '.'] + (".+" + rest) == "\\..+" + rest && (".+" + rest)[0..] == ".+" + rest;
    assert [Item(Char('.'), One)] + ([Item(Any, Plus)] + items) == [Item(Char('.'), One), Item(Any, Plus)] + items;
  }

  lemma {:induction false} CompiledTextParses(pattern: string)
    requires WellFormed(pattern)
    ensures Parse(Compile(pattern)) == Some(Items(pattern))
    decreases |pattern|
  {
    if Wildcard(pattern) {
      var rest := pattern[2..];
      WellFormedTail(pattern, 2);
      CompiledTextParses(rest);
      CompileHead(rest);
      ParseWildcard(Compile(rest), Items(rest));
    } else if pattern != "" {
      var rest := pattern[1..];
      WellFormedTail(pattern, 1);
      CompiledTextParses(rest);
      CompileHead(rest);
      assert StarFollowsDot(pattern, 0);
      assert Compile(rest)[0..] == Compile(rest);
      ParseAtom(pattern[0], Compile(rest));
    }
  }

  lemma {:induction false} AnyPlusAccepts(rest: seq<Item>, text: string)
    ensures Accepts([Item(Any, Plus)] + rest, text)
       <==> exists k :: 1 <= k <= |text| && SingleLine(text[..k]) && Accepts(rest, text[k..])
    decreases |text|
  {
    var items := [Item(Any, Plus)] + rest;
    assert items[1..] == rest;
    if text == "" {
    } else {
      var tail := text[1..];
      AnyPlusAccepts(rest, tail);
      if Accepts(items, text) {
        assert text[..1] == [text[0]];
        if Accepts(rest, tail) {
          assert SingleLine(text[..1]) && text[1..] == tail;
        } else {
          var k :| 1 <= k <= |tail| && SingleLine(tail[..k]) && Accepts(rest, tail[k..]);
          assert text[..k + 1] == [text[0]] + tail[..k] && text[k + 1..] == tail[k..];
          assert SingleLine(text[..k + 1]);
        }
      }
      if k :| 1 <= k <= |text| && SingleLine(text[..k]) && Accepts(rest, text[k..]) {
        assert text[..k][0] == text[0];
        if k > 1 {
          assert tail[..k - 1] == text[..k][1..] && tail[k - 1..] == text[k..];
          assert SingleLine(tail[..k - 1]);
        }
      }
    }
  }

  lemma {:induction false} ItemsAreTheGlob(pattern: string, topic: string)
    ensures Accepts(Items(pattern), topic) <==> Glob(pattern, topic, true)
    decreases |pattern|
  {
    if pattern == "" || topic == "" {
    } else if Wildcard(pattern) {
      var rest, tail := pattern[2..], topic[1..];
      assert Items(pattern)[1..] == [Item(Any, Plus)] + Items(rest);
      AnyPlusAccepts(Items(rest), tail);
      forall k | 2 <= k <= |topic|
        ensures topic[1..k] == tail[..k - 1] && topic[k..] == tail[k - 1..]
        ensures Accepts(Items(rest), tail[k - 1..]) <==> Glob(rest, topic[k..], true)
      {
        ItemsAreTheGlob(rest, topic[k..]);
      }
      assert (exists k :: 2 <= k <= |topic| && SingleLine(topic[1..k]) && Glob(rest, topic[k..], true))
        <==> exists k :: 1 <= k <= |tail| && SingleLine(tail[..k]) && Accepts(Items(rest), tail[k..]) by {
        if k :| 1 <= k <= |tail| && SingleLine(tail[..k]) && Accepts(Items(rest), tail[k..]) {
          assert SingleLine(topic[1..k + 1]) && Glob(rest, topic[k + 1..], true);
        }
      }
    } else {
      assert Items(pattern)[1..] == Items(pattern[1..]);
      ItemsAreTheGlob(pattern[1..], topic[1..]);
    }
  }

  /** For every well-formed pattern and every topic, the compiled expression accepts what the glob accepts. */
  lemma RegexIsTheGlob(pattern: string, topic: string)
    requires WellFormed(pattern)
    ensures Regex(pattern, topic) == Ok(Glob(pattern, topic, true))
  {
    RewritesFuse(pattern);
    CompiledTextParses(pattern);
    ItemsAreTheGlob(pattern, topic);
  }

  lemma {:induction false} OneLineTopics(pattern: string, topic: string)
    requires SingleLine(topic)
    ensures Glob(pattern, topic, true) == Glob(pattern, topic, false)
    decreases |pattern|
  {
    if pattern == "" {
    } else if Wildcard(pattern) {
      forall k | 2 <= k <= |topic|
        ensures SingleLine(topic[1..k]) && Glob(pattern[2..], topic[k..], true) == Glob(pattern[2..], topic[k..], false)
      {
        OneLineTopics(pattern[2..], topic[k..]);
      }
    } else if topic != "" {
      OneLineTopics(pattern[1..], topic[1..]);
    }
  }

  lemma {:induction false} GlobMatchesItself(pattern: string)
    requires WellFormed(pattern)
    ensures Glob(pattern, pattern, true)
    decreases |pattern|
  {
    if pattern == "" {
    } else if Wildcard(pattern) {
      WellFormedTail(pattern, 2);
      GlobMatchesItself(pattern[2..]);
      assert SingleLine(pattern[1..2]);
    } else {
      WellFormedTail(pattern, 1);
      GlobMatchesItself(pattern[1..]);
    }
  }

  /** The matcher on single-line topics is the glob; the shortcut for equal strings changes no answer. */
  lemma MatchesIsTheGlob(pattern: string, topic: string)
    requires WellFormed(pattern) && SingleLine(topic)
    ensures Matches(pattern, topic) == Ok(Glob(pattern, topic, false)) == Regex(pattern, topic)
  {
    RegexIsTheGlob(pattern, topic);
    OneLineTopics(pattern, topic);
    assert |pattern| > 0 ==> StarFollowsDot(pattern, 0);
    if pattern == topic {
      GlobMatchesItself(pattern);
    }
  }

  predicate Literal(pattern: string) {
    forall i :: 0 <= i < |pattern| ==> pattern[i] != '*' && pattern[i] != '?'
  }

  lemma {:induction false} LiteralPrefix(prefix: string, pattern: string, topic: string, oneLine: bool)
    requires Literal(prefix) && (pattern != "" ==> pattern[0] != '*')
    ensures Glob(prefix + pattern, topic, oneLine)
       <==> prefix <= topic && Glob(pattern, topic[|prefix|..], oneLine)
    decreases |prefix|
  {
    var whole := prefix + pattern;
    if prefix == "" {
      assert whole == pattern && topic[0..] == topic;
    } else {
      assert whole[1..] == prefix[1..] + pattern;
      if topic != "" {
        LiteralPrefix(prefix[1..], pattern, topic[1..], oneLine);
        assert prefix <= topic <==> prefix[0] == topic[0] && prefix[1..] <= topic[1..];
        if prefix <= topic { assert topic[1..][|prefix[1..]|..] == topic[|prefix|..]; }
      }
    }
  }

  /**
   `ns.*` receives exactly the topics that begin with `ns.`, are longer than it, and go on without one of the four
   line terminators, so every longer one of printable ASCII; a pattern without a wildcard receives exactly itself, and
   `*` everything.
   */
  lemma NamespaceWildcard(ns: string, topic: string)
    requires Literal(ns)
    ensures Regex(ns + ".*", topic)
              == Ok(ns + "." <= topic && |topic| > |ns| + 1
                    && forall i :: |ns| < i < |topic| ==>
                         topic[i] != '\n' && topic[i] != '\r' && topic[i] != '\U{2028}' && topic[i] != '\U{2029}')
    ensures (forall i :: 0 <= i < |topic| ==> ' ' <= topic[i] <= '~') ==>
              Regex(ns + ".*", topic) == Ok(ns + "." <= topic && |topic| > |ns| + 1)
    ensures Matches(ns, topic) == Ok(ns == topic)
    ensures Matches("*", topic) == Ok(true)
  {
    hide Regex, Glob;
    RegexIsTheGlob(ns + ".*", topic);
    LiteralPrefix(ns, ".*", topic, true);
    if ns <= topic {
      var tail := topic[|ns|..];
      WildcardAlone(tail);
      assert |tail| >= 2 ==> topic[|ns| + 1..] == tail[1..];
      assert forall i :: |ns| < i < |topic| ==> topic[i] == tail[i - |ns|];
      assert ns + "." <= topic <==> |tail| >= 1 && tail[0] == '.';
    } else {
      assert ns <= ns + ".";
    }
    PlainPattern(ns, topic);
    assert "*"[0] == '*';
  }

  lemma WildcardAlone(tail: string)
    ensures Glob(".*", tail, true)
       <==> |tail| >= 2 && tail[0] == '.' && forall i :: 0 < i < |tail| ==>
              tail[i] != '\n' && tail[i] != '\r' && tail[i] != '\U{2028}' && tail[i] != '\U{2029}'
  {
    if |tail| >= 2 {
      assert tail[1..|tail|] == tail[1..] && tail[|tail|..] == "";
      assert forall i :: 0 < i < |tail| ==> tail[i] == tail[1..][i - 1];
    }
  }

  lemma PlainPattern(ns: string, topic: string)
    requires Literal(ns)
    ensures Regex(ns, topic) == Ok(ns == topic)
  {
    hide Regex;
    RegexIsTheGlob(ns, topic);
    LiteralPrefix(ns, "", topic, true);
    assert ns + "" == ns;
  }
}
