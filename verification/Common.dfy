/** Values and string operations the other modules share. */
module Common {
  datatype Option<+T> = None | Some(value: T)

  datatype Result<+T, +E> = Ok(value: T) | Err(error: E)

  /** White space and line terminators, as String.prototype.trim removes them (ECMA-262, section 22.1.3.32). */
  predicate WhiteSpace(c: char) {
    c == ' ' || ('\t' <= c <= '\r') || c == '\U{A0}' || c == '\U{1680}' || ('\U{2000}' <= c <= '\U{200A}')
    || c == '\U{2028}' || c == '\U{2029}' || c == '\U{202F}' || c == '\U{205F}' || c == '\U{3000}' || c == '\U{FEFF}'
  }

  /** The same, one by one. */
  lemma WhiteSpaceIs(c: char)
    ensures WhiteSpace(c) <==> c in "\t\n\U{B}\U{C}\r \U{A0}\U{1680}\U{2000}\U{2001}\U{2002}\U{2003}\U{2004}\U{2005}"
                                 || c in "\U{2006}\U{2007}\U{2008}\U{2009}\U{200A}\U{2028}\U{2029}\U{202F}\U{205F}"
                                 || c in "\U{3000}\U{FEFF}"
  {
  }

  predicate Blank(s: string) {
    forall i :: 0 <= i < |s| ==> WhiteSpace(s[i])
  }

  function TrimStart(s: string): string {
    if s != "" && WhiteSpace(s[0]) then TrimStart(s[1..]) else s
  }

  function TrimEnd(s: string): string {
    if s != "" && WhiteSpace(s[|s| - 1]) then TrimEnd(s[..|s| - 1]) else s
  }

  function Trim(s: string): string {
    TrimEnd(TrimStart(s))
  }

  /** A string that trimming leaves alone and that is not empty. */
  predicate Trimmed(s: string) {
    s != "" && !WhiteSpace(s[0]) && !WhiteSpace(s[|s| - 1])
  }

  lemma {:induction false} TrimStartPadding(pad: string, s: string)
    requires Blank(pad)
    ensures TrimStart(pad + s) == TrimStart(s)
    decreases |pad|
  {
    if pad == "" {
      assert pad + s == s;
    } else {
      assert (pad + s)[1..] == pad[1..] + s;
      TrimStartPadding(pad[1..], s);
    }
  }

  lemma {:induction false} TrimEndPadding(s: string, pad: string)
    requires Blank(pad)
    ensures TrimEnd(s + pad) == TrimEnd(s)
    decreases |pad|
  {
    if pad == "" {
      assert s + pad == s;
    } else {
      assert (s + pad)[..|s + pad| - 1] == s + pad[..|pad| - 1];
      TrimEndPadding(s, pad[..|pad| - 1]);
    }
  }

  lemma TrimPadded(before: string, s: string, after: string)
    requires Blank(before) && Blank(after) && Trimmed(s)
    ensures Trim(before + s + after) == s
  {
    assert before + s + after == before + (s + after);
    TrimStartPadding(before, s + after);
    TrimEndPadding(s, after);
  }

  lemma TrimBlank(s: string)
    requires Blank(s)
    ensures Trim(s) == ""
  {
    TrimStartPadding(s, "");
    assert s + "" == s;
  }

  /** Every string is padding around its trimmed text. */
  lemma {:induction false} TrimSplit(s: string) returns (before: string, after: string)
    ensures Blank(before) && Blank(after) && s == before + Trim(s) + after
    ensures Trim(s) == "" || Trimmed(Trim(s))
    ensures Trim(s) == "" <==> Blank(s)
  {
    var core: string;
    before, core := TrimStartSplit(s);
    after := TrimEndSplit(core);
    assert s == before + (Trim(s) + after) == before + Trim(s) + after;
    if Trim(s) == "" {
      assert s == before + after;
    }
    if Blank(s) {
      TrimBlank(s);
    }
    if core != "" && Trim(s) != "" {
      assert core[0] == Trim(s)[0];
    }
  }

  lemma {:induction false} TrimStartSplit(s: string) returns (before: string, rest: string)
    ensures Blank(before) && s == before + rest && rest == TrimStart(s)
    ensures rest != "" ==> !WhiteSpace(rest[0])
    decreases |s|
  {
    if s != "" && WhiteSpace(s[0]) {
      before, rest := TrimStartSplit(s[1..]);
      before := [s[0]] + before;
    } else {
      before, rest := "", s;
    }
  }

  lemma {:induction false} TrimEndSplit(s: string) returns (after: string)
    ensures Blank(after) && s == TrimEnd(s) + after
    ensures TrimEnd(s) != "" ==> !WhiteSpace(TrimEnd(s)[|TrimEnd(s)| - 1])
    decreases |s|
  {
    if s != "" && WhiteSpace(s[|s| - 1]) {
      after := TrimEndSplit(s[..|s| - 1]);
      after := after + [s[|s| - 1]];
      assert s == s[..|s| - 1] + [s[|s| - 1]];
    } else {
      after := "";
    }
  }
}
