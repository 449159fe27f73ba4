/** The configuration value that maps ventures to tenants: `venture:tenant` pairs, separated by commas. */
module Office {
  import opened Common

  datatype OfficeConfigError = NotSet | Malformed(entry: string) | TwoTenants(venture: string) | NoVentures

  function IndexOf(s: string, c: char): (i: int)
    ensures -1 <= i < |s| && (i >= 0 ==> s[i] == c)
  {
    if s == "" then -1
    else if s[0] == c then 0
    else
      var i := IndexOf(s[1..], c);
      if i < 0 then -1 else i + 1
  }

  lemma {:induction false} IndexOfIsFirst(s: string, c: char)
    ensures forall k :: 0 <= k < (if IndexOf(s, c) < 0 then |s| else IndexOf(s, c)) ==> s[k] != c
  {
    if s != "" && s[0] != c {
      IndexOfIsFirst(s[1..], c);
      assert forall k :: 0 < k < |s| ==> s[k] == s[1..][k - 1];
    }
  }

  /** The pieces between the separators, at least one. */
  function Split(s: string, c: char): (pieces: seq<string>)
    ensures pieces != []
    decreases |s|
  {
    var i := IndexOf(s, c);
    if i < 0 then [s] else [s[..i]] + Split(s[i + 1..], c)
  }

  function JoinWith(pieces: seq<string>, c: char): string
    requires pieces != []
  {
    if |pieces| == 1 then pieces[0] else pieces[0] + [c] + JoinWith(pieces[1..], c)
  }

  lemma {:induction false} SplitUndoesJoin(pieces: seq<string>, c: char)
    requires pieces != [] && forall i :: 0 <= i < |pieces| ==> c !in pieces[i]
    ensures Split(JoinWith(pieces, c), c) == pieces
    decreases |pieces|
  {
    if |pieces| > 1 {
      hide Split;
      SplitUndoesJoin(pieces[1..], c);
      SplitFirst(pieces[0], JoinWith(pieces[1..], c), c);
    } else {
      assert c !in pieces[0];
    }
  }

  lemma SplitFirst(first: string, rest: string, c: char)
    requires c !in first
    ensures Split(first + [c] + rest, c) == [first] + Split(rest, c)
  {
    var s := first + [c] + rest;
    assert s[|first|] == c && s[..|first|] == first && s[|first| + 1..] == rest;
    IndexIs(s, c, |first|);
  }

  lemma IndexIs(s: string, c: char, i: nat)
    requires i < |s| && s[i] == c && c !in s[..i]
    ensures IndexOf(s, c) == i
  {
    IndexOfIsFirst(s, c);
    forall k | 0 <= k < i ensures s[k] != c { assert s[k] == s[..i][k]; }
  }

  // ---- Entries ----

  datatype Entry = NoEntry | Bad(text: string) | Binding(venture: string, tenantId: string)

  /** One entry: blank, a pair around its first colon, or malformed. */
  function EntryOf(piece: string): Entry {
    var trimmed := Trim(piece);
    var separator := IndexOf(trimmed, ':');
    if trimmed == "" then NoEntry
    else if separator <= 0 || separator == |trimmed| - 1 then Bad(trimmed)
    else Binding(Trim(trimmed[..separator]), Trim(trimmed[separator + 1..]))
  }

  predicate Name(s: string) {
    Trimmed(s) && ',' !in s
  }

  predicate Venture(s: string) {
    Name(s) && ':' !in s
  }

  /** A pair around a colon, with any padding, is read as that pair.  The tenant may contain colons. */
  lemma PairIsRead(a: string, venture: string, b: string, c: string, tenantId: string, d: string)
    requires Blank(a) && Blank(b) && Blank(c) && Blank(d) && Venture(venture) && Name(tenantId)
    ensures EntryOf(a + venture + b + ":" + c + tenantId + d) == Binding(venture, tenantId)
  {
    var left, right := venture + b, c + tenantId;
    var text := left + ":" + right;
    assert a + venture + b + ":" + c + tenantId + d == a + text + d;
    assert text[0] == venture[0] && text[|text| - 1] == tenantId[|tenantId| - 1];
    TrimPadded(a, text, d);
    assert ':' !in b by { BlankHasNo(b, ':'); }
    assert text[..|left|] == left && text[|left|] == ':' && text[|left| + 1..] == right;
    IndexIs(text, ':', |left|);
    assert left == "" + venture + b && right == c + tenantId + "";
    TrimPadded("", venture, b);
    TrimPadded(c, tenantId, "");
  }

  lemma BlankHasNo(s: string, c: char)
    requires Blank(s) && !WhiteSpace(c)
    ensures c !in s
  {
  }

  /** Nothing empty is ever bound: a pair always has a venture without a colon and a tenant, both trimmed. */
  lemma BindingsAreNames(piece: string)
    requires EntryOf(piece).Binding?
    ensures Trimmed(EntryOf(piece).venture) && Trimmed(EntryOf(piece).tenantId) && ':' !in EntryOf(piece).venture
  {
    var before, after := TrimSplit(piece);
    var trimmed := Trim(piece);
    var i := IndexOf(trimmed, ':');
    IndexOfIsFirst(trimmed, ':');
    TrimKeeps(trimmed[..i], ':');
    TrimKeeps(trimmed[i + 1..], ':');
    assert trimmed[..i][0] == trimmed[0];
    assert trimmed[i + 1..][|trimmed| - i - 2] == trimmed[|trimmed| - 1];
  }

  /** Trimming leaves a string that is not blank a name, and adds no character. */
  lemma TrimKeeps(s: string, c: char)
    ensures !Blank(s) ==> Trimmed(Trim(s))
    ensures c !in s ==> c !in Trim(s)
  {
    var a, b := TrimSplit(s);
    assert forall k :: 0 <= k < |Trim(s)| ==> s[|a| + k] == Trim(s)[k];
  }

  // ---- The map ----

  ghost predicate Conflict(e: Entry, f: Entry) {
    e.Binding? && f.Binding? && e.venture == f.venture && e.tenantId != f.tenantId
  }

  ghost predicate Consistent(entries: seq<Entry>) {
    && (forall i :: 0 <= i < |entries| ==> !entries[i].Bad?)
    && (forall i, j :: 0 <= i < |entries| && 0 <= j < |entries| ==> !Conflict(entries[i], entries[j]))
  }

  /** The map holds the bindings of the entries and nothing else. */
  ghost predicate Graph(m: map<string, string>, entries: seq<Entry>) {
    && (forall i :: 0 <= i < |entries| && entries[i].Binding? ==>
          entries[i].venture in m && m[entries[i].venture] == entries[i].tenantId)
    && (forall venture :: venture in m ==> Binding(venture, m[venture]) in entries)
  }

  function EntriesOf(raw: string): (entries: seq<Entry>)
    ensures entries != []
  {
    var pieces := Split(raw, ',');
    seq(|pieces|, i requires 0 <= i < |pieces| => EntryOf(pieces[i]))
  }

  type Answer = Result<map<string, string>, OfficeConfigError>

  /** What is to be returned or thrown for a list of entries: the first offending entry decides. */
  ghost predicate Decides(entries: seq<Entry>, r: Answer) {
    match r
    case Ok(m) => Consistent(entries) && Graph(m, entries) && m != map[]
    case Err(NotSet) => false
    case Err(NoVentures) => forall i :: 0 <= i < |entries| ==> entries[i].NoEntry?
    case Err(Malformed(text)) =>
      exists k :: 0 <= k < |entries| && Consistent(entries[..k]) && entries[k] == Bad(text)
    case Err(TwoTenants(venture)) =>
      exists k :: 0 <= k < |entries| && Consistent(entries[..k]) && !Consistent(entries[..k + 1])
        && entries[k].Binding? && entries[k].venture == venture
  }

  /** The same for a value of the variable. */
  ghost predicate Answers(value: Option<string>, r: Answer) {
    if value.None? || Blank(value.value) then r == Err(NotSet) else Decides(EntriesOf(value.value), r)
  }

  method VentureTenantMap(value: Option<string>) returns (r: Answer)
    ensures Answers(value, r)
  {
    hide *;
    NothingSet(value);
    if value.None? || Trim(value.value) == "" { return Err(NotSet); }
    NothingYet();
    EntriesMatch(value.value);
    var pieces := Split(value.value, ',');
    ghost var entries := EntriesOf(value.value);
    var m: map<string, string> := map[];
    assert entries[..0] == [];
    for k := 0 to |pieces|
      invariant Consistent(entries[..k]) && Graph(m, entries[..k])
    {
      ghost var entry := entries[k];
      assert entries[..k + 1] == entries[..k] + [entry] && entry == EntryOf(pieces[k]);
      EntryCases(pieces[k]);
      var trimmed := Trim(pieces[k]);
      if trimmed == "" {
        OneMore(entries[..k], m, entry);
        continue;
      }
      var separator := IndexOf(trimmed, ':');
      if separator <= 0 || separator == |trimmed| - 1 {
        StopsAt(value, k);
        return Err(Malformed(trimmed));
      }
      var venture := Trim(trimmed[..separator]);
      var tenantId := Trim(trimmed[separator + 1..]);
      OneMore(entries[..k], m, entry);
      if venture in m && m[venture] != tenantId {
        StopsAt(value, k);
        return Err(TwoTenants(venture));
      }
      m := m[venture := tenantId];
    }
    assert entries[..|pieces|] == entries;
    Finished(value, m);
    r := if m == map[] then Err(NoVentures) else Ok(m);
  }

  lemma NothingSet(value: Option<string>)
    ensures value.None? || Blank(value.value) ==> Answers(value, Err(NotSet))
    ensures value.Some? ==> (Blank(value.value) <==> Trim(value.value) == "")
  {
    if value.Some? {
      var before, after := TrimSplit(value.value);
    }
  }

  lemma NothingYet()
    ensures Consistent([]) && Graph(map[], [])
  {
  }

  lemma EntriesMatch(raw: string)
    ensures |EntriesOf(raw)| == |Split(raw, ',')|
    ensures forall i :: 0 <= i < |EntriesOf(raw)| ==> EntriesOf(raw)[i] == EntryOf(Split(raw, ',')[i])
  {
  }

  lemma Finished(value: Option<string>, m: map<string, string>)
    requires value.Some? && !Blank(value.value)
    requires Consistent(EntriesOf(value.value)) && Graph(m, EntriesOf(value.value))
    ensures Answers(value, if m == map[] then Err(NoVentures) else Ok(m))
  {
    hide EntriesOf, Blank;
  }

  lemma EntryCases(piece: string)
    ensures var trimmed := Trim(piece);
            var separator := IndexOf(trimmed, ':');
            EntryOf(piece)
            == if trimmed == "" then NoEntry
               else if separator <= 0 || separator == |trimmed| - 1 then Bad(trimmed)
               else Binding(Trim(trimmed[..separator]), Trim(trimmed[separator + 1..]))
  {
  }

  lemma StopsAt(value: Option<string>, k: nat)
    requires value.Some? && !Blank(value.value)
    requires var entries := EntriesOf(value.value);
             k < |entries| && Consistent(entries[..k])
             && (entries[k].Bad? || (entries[k].Binding? && !Consistent(entries[..k + 1])))
    ensures var entries := EntriesOf(value.value);
            Answers(value, Err(if entries[k].Bad? then Malformed(entries[k].text) else TwoTenants(entries[k].venture)))
  {
    hide EntriesOf, Consistent, Blank;
    assert EntriesOf(value.value)[k].Bad? ==> EntriesOf(value.value)[k] == Bad(EntriesOf(value.value)[k].text);
  }

  lemma OneMore(entries: seq<Entry>, m: map<string, string>, e: Entry)
    requires Consistent(entries) && Graph(m, entries)
    ensures e.NoEntry? ==> Consistent(entries + [e]) && Graph(m, entries + [e])
    ensures e.Binding? ==>
              (Consistent(entries + [e]) <==> (e.venture in m ==> m[e.venture] == e.tenantId))
              && (Consistent(entries + [e]) ==> Graph(m[e.venture := e.tenantId], entries + [e]))
  {
    var all := entries + [e];
    assert forall i :: 0 <= i < |all| ==> all[i] == if i < |entries| then entries[i] else e;
    if e.Binding? && e.venture in m && m[e.venture] != e.tenantId {
      var i :| 0 <= i < |entries| && entries[i] == Binding(e.venture, m[e.venture]);
      assert Conflict(all[i], all[|entries|]);
    }
  }

  // ---- What the parser promises ----

  /** It rejects exactly what has a malformed pair, a venture with two tenants, or no pairs. */
  lemma RejectsExactly(entries: seq<Entry>, r: Answer)
    requires Decides(entries, r)
    ensures r.Err? <==>
              || (exists i :: 0 <= i < |entries| && entries[i].Bad?)
              || (exists i, j :: 0 <= i < |entries| && 0 <= j < |entries| && Conflict(entries[i], entries[j]))
              || (forall i :: 0 <= i < |entries| ==> entries[i].NoEntry?)
  {
    hide Conflict;
    match r
    case Ok(m) =>
      var venture :| venture in m;
      assert Binding(venture, m[venture]) in entries;
    case Err(Malformed(text)) =>
      assert exists k :: 0 <= k < |entries| && entries[k] == Bad(text);
    case Err(TwoTenants(venture)) =>
      var k :| 0 <= k < |entries| && Consistent(entries[..k]) && !Consistent(entries[..k + 1]) && entries[k].Binding?;
      PrefixIsConsistent(entries, k + 1);
    case Err(_) =>
  }

  lemma PrefixIsConsistent(entries: seq<Entry>, k: nat)
    requires k <= |entries|
    ensures Consistent(entries) ==> Consistent(entries[..k])
  {
  }

  /** The answer is determined, down to the error and its text. */
  lemma DecidesOnce(entries: seq<Entry>, r: Answer, r': Answer)
    requires Decides(entries, r) && Decides(entries, r')
    ensures r == r'
  {
    hide Consistent, Graph;
    BothReject(entries, r, r');
    if r.Ok? {
      GraphsAreEqual(r.value, r'.value, entries);
    } else {
      var k := FirstOffence(entries, r);
      var k' := FirstOffence(entries, r');
      if k < k' {
        PrefixOfPrefix(entries, k + 1, k');
      } else if k' < k {
        PrefixOfPrefix(entries, k' + 1, k);
      }
    }
  }

  lemma PrefixOfPrefix(entries: seq<Entry>, k: nat, n: nat)
    requires k <= n <= |entries|
    ensures Consistent(entries[..n]) ==> Consistent(entries[..k])
  {
    assert entries[..n][..k] == entries[..k];
    PrefixIsConsistent(entries[..n], k);
  }

  lemma BothReject(entries: seq<Entry>, r: Answer, r': Answer)
    requires Decides(entries, r) && Decides(entries, r')
    ensures r.Err? <==> r'.Err?
  {
    hide Decides;
    RejectsExactly(entries, r);
    RejectsExactly(entries, r');
  }

  lemma GraphsAreEqual(m: map<string, string>, m': map<string, string>, entries: seq<Entry>)
    requires Graph(m, entries) && Graph(m', entries)
    ensures m == m'
  {
  }

  /** The entry an error is about; its index is past the end when no entry offends. */
  lemma FirstOffence(entries: seq<Entry>, r: Answer) returns (k: nat)
    requires Decides(entries, r) && r.Err?
    ensures k <= |entries| && Consistent(entries[..k])
    ensures k < |entries| ==> !Consistent(entries[..k + 1])
    ensures k == |entries| <==> r == Err(NoVentures)
    ensures k < |entries| ==> r == Err(if entries[k].Bad? then Malformed(entries[k].text)
                                       else if entries[k].Binding? then TwoTenants(entries[k].venture) else NotSet)
  {
    match r
    case Err(Malformed(text)) =>
      k :| 0 <= k < |entries| && Consistent(entries[..k]) && entries[k] == Bad(text);
      assert entries[..k + 1][k].Bad?;
    case Err(TwoTenants(venture)) =>
      k :| 0 <= k < |entries| && Consistent(entries[..k]) && !Consistent(entries[..k + 1])
           && entries[k].Binding? && entries[k].venture == venture;
    case Err(NoVentures) =>
      k := |entries|;
  }

  /** A piece of a rendering: padding alone, or a pair with padding around both names. */
  datatype Piece = Padding(pad: string)
                 | Pair(a: string, venture: string, b: string, c: string, tenantId: string, d: string)

  predicate Writable(p: Piece) {
    match p
    case Padding(pad) => Blank(pad)
    case Pair(a, venture, b, c, tenantId, d) =>
      Blank(a) && Blank(b) && Blank(c) && Blank(d) && Venture(venture) && Name(tenantId)
  }

  function Text(p: Piece): string {
    match p
    case Padding(pad) => pad
    case Pair(a, venture, b, c, tenantId, d) => a + venture + b + ":" + c + tenantId + d
  }

  function Texts(pieces: seq<Piece>): (texts: seq<string>)
    ensures |texts| == |pieces| && forall i :: 0 <= i < |pieces| ==> texts[i] == Text(pieces[i])
  {
    seq(|pieces|, i requires 0 <= i < |pieces| => Text(pieces[i]))
  }

  function Render(pieces: seq<Piece>): string
    requires pieces != []
  {
    JoinWith(Texts(pieces), ',')
  }

  function Meant(p: Piece): Entry {
    match p case Padding(_) => NoEntry case Pair(_, venture, _, _, tenantId, _) => Binding(venture, tenantId)
  }

  lemma PieceIsRead(p: Piece)
    requires Writable(p)
    ensures EntryOf(Text(p)) == Meant(p) && ',' !in Text(p)
  {
    match p
    case Padding(pad) =>
      TrimBlank(pad);
      BlankHasNo(pad, ',');
    case Pair(a, venture, b, c, tenantId, d) =>
      PairIsRead(a, venture, b, c, tenantId, d);
      BlankHasNo(a, ',');
      BlankHasNo(b, ',');
      BlankHasNo(c, ',');
      BlankHasNo(d, ',');
      hide EntryOf, Blank, Trimmed;
  }

  lemma RenderingIsRead(pieces: seq<Piece>)
    requires pieces != [] && forall i :: 0 <= i < |pieces| ==> Writable(pieces[i])
    ensures var entries := EntriesOf(Render(pieces));
            |entries| == |pieces| && forall i :: 0 <= i < |pieces| ==> entries[i] == Meant(pieces[i])
  {
    hide EntryOf, Text, Writable;
    forall i | 0 <= i < |pieces|
      ensures EntryOf(Text(pieces[i])) == Meant(pieces[i]) && ',' !in Texts(pieces)[i]
    {
      PieceIsRead(pieces[i]);
    }
    SplitUndoesJoin(Texts(pieces), ',');
  }

  /**
   The parser undoes the printer: a map rendered in any order, with blank entries, repetitions and padding, is what
   the parser returns.
   */
  lemma ParsingUndoesRendering(m: map<string, string>, pieces: seq<Piece>)
    requires m != map[] && pieces != [] && forall i :: 0 <= i < |pieces| ==> Writable(pieces[i])
    requires forall i :: 0 <= i < |pieces| && pieces[i].Pair? ==>
               pieces[i].venture in m && m[pieces[i].venture] == pieces[i].tenantId
    requires forall venture :: venture in m ==>
               exists i :: 0 <= i < |pieces| && Meant(pieces[i]) == Binding(venture, m[venture])
    ensures Answers(Some(Render(pieces)), Ok(m)) && forall r :: Answers(Some(Render(pieces)), r) ==> r == Ok(m)
  {
    hide EntriesOf, Render, Writable, Blank;
    RenderingIsRead(pieces);
    var entries := EntriesOf(Render(pieces));
    assert Graph(m, entries) && Consistent(entries);
    NotBlank(Render(pieces), entries);
    assert Decides(entries, Ok(m));
    hide Decides;
    forall r | Answers(Some(Render(pieces)), r)
      ensures r == Ok(m)
    {
      DecidesOnce(entries, r, Ok(m));
    }
  }

  lemma NotBlank(raw: string, entries: seq<Entry>)
    requires entries == EntriesOf(raw)
    ensures (exists i :: 0 <= i < |entries| && !entries[i].NoEntry?) ==> !Blank(raw)
  {
    if Blank(raw) {
      BlankHasNo(raw, ',');
      assert Split(raw, ',') == [raw];
      TrimBlank(raw);
    }
  }
}
