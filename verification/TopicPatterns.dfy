/**
 Patterns beyond the well-formed ones: the matcher means what the glob means exactly for these, and it throws exactly
 for those in which a `*` or `?` has nothing to quantify.
 */
module TopicPatterns {
  import opened Common
  import opened TopicMatcher

  // ---- Only well-formed patterns mean what the glob means ----

  /** Well-formed, read from the left as the rewrites do. */
  predicate Clean(pattern: string) {
    if pattern == "" then true
    else if Wildcard(pattern) then Clean(pattern[2..])
    else pattern[0] != '*' && pattern[0] != '?' && Clean(pattern[1..])
  }

  lemma {:induction false} CleanIsWellFormed(pattern: string)
    requires Clean(pattern)
    ensures WellFormed(pattern)
    decreases |pattern|
  {
    if pattern == "" {
    } else {
      var n := if Wildcard(pattern) then 2 else 1;
      CleanIsWellFormed(pattern[n..]);
      forall i | 0 <= i < |pattern|
        ensures StarFollowsDot(pattern, i)
      {
        if i >= n { assert StarFollowsDot(pattern[n..], i - n); }
      }
    }
  }

  /** The shortest text the terms accept. */
  function Shortest(items: seq<Item>): string {
    if items == [] then ""
    else
      (match items[0].repeat
       case Opt => ""
       case Star => ""
       case _ => match items[0].atom case Any => "a" case Char(c) => [c])
      + Shortest(items[1..])
  }

  lemma {:induction false} ShortestIsAccepted(items: seq<Item>)
    ensures Accepts(items, Shortest(items))
    decreases |items|
  {
    if items == [] {
    } else {
      var rest := Shortest(items[1..]);
      ShortestIsAccepted(items[1..]);
      if items[0].repeat.Opt? || items[0].repeat.Star? {
        assert Shortest(items) == rest;
      } else {
        assert Shortest(items)[1..] == rest;
      }
    }
  }

  lemma ShortestConcat(first: Item, items: seq<Item>)
    ensures |Shortest([first] + items)|
            == (if first.repeat.One? || first.repeat.Plus? then 1 else 0) + |Shortest(items)|
  {
    assert ([first] + items)[1..] == items;
  }

  /** The pattern without the stray `*` or `?`, and the lazy `?` after it, that quantify what stands before it. */
  function Unquantified(pattern: string): (rest: string)
    ensures |rest| <= |pattern|
  {
    if pattern == "" || (pattern[0] != '*' && pattern[0] != '?') then pattern
    else if |pattern| > 1 && pattern[1] == '?' then pattern[2..]
    else pattern[1..]
  }

  lemma CompilePlain(c: char, rest: string)
    requires !(c == '.' && rest != "" && rest[0] == '*')
    ensures Compile([c] + rest) == (if Special(c) then ['\\', c] else [c]) + Compile(rest)
  {
    assert ([c] + rest)[1..] == rest;
  }

  /** What the compiled text reads as a quantifier is what the pattern has in its place. */
  lemma QuantifierOf(pattern: string)
    ensures var text := Compile(pattern);
            && text[RepeatLength(text)..] == Compile(Unquantified(pattern))
            && (ReadRepeat(text) == One <==> Unquantified(pattern) == pattern)
            && ReadRepeat(text) != Plus
  {
  }

  lemma ParseStray(c: char, tail: string)
    requires c == '*' || c == '?'
    ensures Parse([c] + tail) == None
  {
  }

  lemma ParseDotPlus(rest: string)
    ensures var parsed := Parse("\\..+" + Compile(rest));
            var after := if rest != "" && rest[0] == '?' then rest[1..] else rest;
            var more := Parse(Compile(after));
            parsed == if more.Some? then Some([Item(Char('.'), One)] + ([Item(Any, Plus)] + more.value)) else None
  {
    hide Parse, Compile;
    var tail := Compile(rest);
    if rest != "" && rest[0] == '?' {
      assert rest == ['?'] + rest[1..];
      CompilePlain('?', rest[1..]);
      assert tail[1..] == Compile(rest[1..]);
    }
    ParsePlus(tail);
    ParseAtom('.', ".+" + tail);
    assert ['\\', '.'] + (".+" + tail) == "\\..+" + tail && (".+" + tail)[0..] == ".+" + tail;
  }

  /** Every stray star or question mark costs the shortest accepted text a character. */
  lemma {:induction false} ShortestIsShorter(pattern: string)
    requires Parse(Compile(pattern)).Some?
    ensures var items := Parse(Compile(pattern)).value;
            |Shortest(items)| <= |pattern| && (!Clean(pattern) ==> |Shortest(items)| < |pattern|)
    decreases |pattern|
  {
    hide Parse, Shortest;
    if pattern == "" {
      EmptyPattern();
    } else if Wildcard(pattern) {
      var rest := pattern[2..];
      var after := if rest != "" && rest[0] == '?' then rest[1..] else rest;
      assert Compile(pattern) == "\\..+" + Compile(rest);
      hide Compile;
      ParseDotPlus(rest);
      ShortestIsShorter(after);
      var items := Parse(Compile(after)).value;
      ShortestConcat(Item(Any, Plus), items);
      ShortestConcat(Item(Char('.'), One), [Item(Any, Plus)] + items);
    } else {
      hide Compile;
      var c, rest := pattern[0], pattern[1..];
      assert pattern == [c] + rest;
      CompilePlain(c, rest);
      if c == '*' || c == '?' {
        ParseStray(c, Compile(rest));
      } else {
        ParseAtom(c, Compile(rest));
      }
      QuantifierOf(rest);
      var after := Unquantified(rest);
      ShortestIsShorter(after);
      ShortestConcat(Item(Char(c), ReadRepeat(Compile(rest))), Parse(Compile(after)).value);
    }
  }

  lemma EmptyPattern()
    ensures Parse(Compile("")) == Some([]) && Shortest([]) == ""
  {
  }

  /** A topic a glob accepts is at least as long as the glob. */
  lemma {:induction false} GlobIsNotShorter(pattern: string, topic: string, oneLine: bool)
    requires Glob(pattern, topic, oneLine)
    ensures |topic| >= |pattern|
    decreases |pattern|
  {
    if Wildcard(pattern) {
      var k :| 2 <= k <= |topic| && topic[0] == '.' && Glob(pattern[2..], topic[k..], oneLine);
      GlobIsNotShorter(pattern[2..], topic[k..], oneLine);
    } else if pattern != "" {
      GlobIsNotShorter(pattern[1..], topic[1..], oneLine);
    }
  }

  /** A topic on which an ill-formed pattern and the glob differ: the empty one, or one too short for the glob. */
  lemma IllFormedDiffers(pattern: string) returns (topic: string)
    requires !WellFormed(pattern)
    ensures Matches(pattern, topic) != Ok(Glob(pattern, topic, true))
    ensures |topic| < |pattern|
  {
    RewritesFuse(pattern);
    assert !Clean(pattern) by { if Clean(pattern) { CleanIsWellFormed(pattern); } }
    var parsed := Parse(Compile(pattern));
    if pattern == "*" || parsed == None {
      topic := "";
    } else {
      ShortestIsShorter(pattern);
      ShortestIsAccepted(parsed.value);
      topic := Shortest(parsed.value);
    }
    if Glob(pattern, topic, true) { GlobIsNotShorter(pattern, topic, true); }
  }

  /** The matcher means what the glob means, on every topic, exactly for the well-formed patterns. */
  lemma GlobExactlyIfWellFormed(pattern: string)
    ensures (forall topic :: Matches(pattern, topic) == Ok(Glob(pattern, topic, true))) <==> WellFormed(pattern)
  {
    if WellFormed(pattern) {
      forall topic
        ensures Matches(pattern, topic) == Ok(Glob(pattern, topic, true))
      {
        RegexIsTheGlob(pattern, topic);
        assert |pattern| > 0 ==> StarFollowsDot(pattern, 0);
        if pattern == topic { GlobMatchesItself(pattern); }
      }
    } else {
      var topic := IllFormedDiffers(pattern);
    }
  }

  // ---- Which patterns compile ----

  /**
   Read from the left, every `*` and `?` has something to quantify.  `room` is what the text before the pattern leaves:
   2 after a plain character, 1 after a quantifier, which a `?` may still make lazy, and 0 where neither may stand.
   */
  predicate Compilable(pattern: string, room: nat)
    decreases |pattern|
  {
    if pattern == "" then true
    else if Wildcard(pattern) then Compilable(pattern[2..], 1)
    else if pattern[0] == '*' then room == 2 && Compilable(pattern[1..], 1)
    else if pattern[0] == '?' then room > 0 && Compilable(pattern[1..], room - 1)
    else Compilable(pattern[1..], 2)
  }

  /** The pattern takes part in matching this topic without an error. */
  predicate Usable(pattern: string, topic: string) {
    pattern == topic || pattern == "*" || Compilable(pattern, 0)
  }

  lemma RoomIsForQuantifiers(pattern: string)
    ensures pattern == "" || pattern[0] != '?' ==> Compilable(pattern, 1) == Compilable(pattern, 0)
    ensures Compilable(pattern, 2) == Compilable(Unquantified(pattern), 0)
  {
    if pattern != "" && (pattern[0] == '*' || pattern[0] == '?') {
      var tail := pattern[1..];
      if tail != "" && tail[0] == '?' {
        assert tail[1..] == pattern[2..];
      }
    }
  }

  lemma {:induction false} ParsesExactlyIfCompilable(pattern: string)
    ensures Parse(Compile(pattern)).Some? <==> Compilable(pattern, 0)
    decreases |pattern|
  {
    if pattern == "" {
      EmptyPattern();
    } else if Wildcard(pattern) {
      assert Compile(pattern) == "\\..+" + Compile(pattern[2..]);
      hide Parse, Compile;
      var rest := pattern[2..];
      var after := if rest != "" && rest[0] == '?' then rest[1..] else rest;
      ParseDotPlus(rest);
      RoomIsForQuantifiers(rest);
      ParsesExactlyIfCompilable(after);
    } else {
      hide Parse, Compile;
      var c, rest := pattern[0], pattern[1..];
      assert pattern == [c] + rest;
      CompilePlain(c, rest);
      QuantifierOf(rest);
      if c == '*' || c == '?' {
        ParseStray(c, Compile(rest));
      } else {
        ParseAtom(c, Compile(rest));
        RoomIsForQuantifiers(rest);
        ParsesExactlyIfCompilable(Unquantified(rest));
      }
    }
  }

  /** A topic is matched without an error exactly if the pattern is the topic, is `*`, or compiles. */
  lemma ErrsExactlyIfUnusable(pattern: string, topic: string)
    ensures Matches(pattern, topic).Ok? <==> Usable(pattern, topic)
  {
    RewritesFuse(pattern);
    ParsesExactlyIfCompilable(pattern);
  }

  /** Two of them: one has another language, one has none. */
  lemma IllFormedPatterns()
    ensures Matches("a*", "aaa") == Ok(true) && Matches("a*", "a.b") == Ok(false)
    ensures Matches("**", "a") == Err(SyntaxError)
  {
    assert Rewrite(Escape("a*")) == "a*";
    var items := [Item(Char('a'), Star)];
    assert "a*"[1..] == "*" && "*"[1..] == "" && items + [] == items && items[1..] == [];
    assert Parse("a*") == Some(items);
    assert "aaa"[1..] == "aa" && "aa"[1..] == "a" && "a"[1..] == "";
    assert Accepts(items, "") && Accepts(items, "a") && Accepts(items, "aa") && Accepts(items, "aaa");
    assert "a.b"[1..] == ".b" && !Accepts(items, ".b") && !Accepts(items, "a.b");
    assert Rewrite(Escape("**")) == "**";
  }
}
