/** The one-pass nesting check in front of the JSON parser, against JSON texts and the trees they denote. */
module Nesting {
  const MAX_DEPTH := 32

  // ----- the scanner -----

  datatype Scan = TooDeep | At(depth: int, quoted: bool, escaped: bool)

  function Next(s: Scan, c: char): Scan {
    if s.TooDeep? then s
    else if s.quoted then
      if s.escaped then s.(escaped := false)
      else if c == '\\' then s.(escaped := true)
      else if c == '\"' then s.(quoted := false)
      else s
    else if c == '\"' then s.(quoted := true)
    else if c == '{' || c == '[' then if s.depth + 1 > MAX_DEPTH then TooDeep else s.(depth := s.depth + 1)
    else if c == '}' || c == ']' then s.(depth := s.depth - 1)
    else s
  }

  function ScanFrom(s: Scan, text: string): Scan
    decreases |text|
  {
    if text == [] then s else ScanFrom(Next(s, text[0]), text[1..])
  }

  /** The loop of decode; structure bytes are ASCII, so characters stand for bytes. */
  method WithinDepth(body: string) returns (ok: bool)
    ensures ok <==> ScanFrom(At(0, false, false), body) != TooDeep
  {
    var depth := 0;
    var quoted, escaped := false, false;
    for i := 0 to |body|
      invariant ScanFrom(At(0, false, false), body) == ScanFrom(At(depth, quoted, escaped), body[i..])
    {
      var c := body[i];
      assert body[i..][0] == c && body[i..][1..] == body[i + 1..];
      if quoted {
        if escaped {
          escaped := false;
        } else if c == '\\' {
          escaped := true;
        } else if c == '\"' {
          quoted := false;
        }
        continue;
      }
      if c == '\"' {
        quoted := true;
      } else if c == '{' || c == '[' {
        depth := depth + 1;
        if depth > MAX_DEPTH {
          StaysTooDeep(body[i + 1..]);
          return false;
        }
      } else if c == '}' || c == ']' {
        depth := depth - 1;
      }
    }
    return true;
  }

  lemma {:induction false} StaysTooDeep(text: string)
    ensures ScanFrom(TooDeep, text) == TooDeep
  {
    if text != [] {
      StaysTooDeep(text[1..]);
    }
  }

  // ----- JSON texts (RFC 8259): a tree together with its whitespace and its spelling -----

  /** One character of a string, or a backslash and the character it escapes; \uXXXX is an escaped u and four characters. */
  datatype Unit = Plain(c: char) | Escape(c: char)

  datatype Value =
    | Literal(text: string)
    | Str(units: seq<Unit>)
    | Arr(blank: string, elements: seq<Padded>)
    | Obj(blank: string, members: seq<Entry>)
  datatype Padded = Padded(before: string, value: Value, after: string)
  datatype Entry = Entry(before: string, key: seq<Unit>, after: string, value: Padded)

  predicate Blank(s: string) {
    forall i :: 0 <= i < |s| ==> s[i] == ' ' || s[i] == '\t' || s[i] == '\n' || s[i] == '\r'
  }

  /** Numbers, true, false and null. */
  predicate LiteralText(s: string) {
    s != "" && forall i :: 0 <= i < |s| ==> 'a' <= s[i] <= 'z' || '0' <= s[i] <= '9' || s[i] == 'E' || s[i] == '+' || s[i] == '-' || s[i] == '.'
  }

  predicate ValidUnits(units: seq<Unit>) {
    forall i :: 0 <= i < |units| ==> units[i].Plain? ==> units[i].c != '\"' && units[i].c != '\\'
  }

  predicate ValidValue(v: Value) {
    match v
    case Literal(text) => LiteralText(text)
    case Str(units) => ValidUnits(units)
    case Arr(blank, elements) => Blank(blank) && forall i :: 0 <= i < |elements| ==> ValidPadded(elements[i])
    case Obj(blank, members) => Blank(blank) && forall i :: 0 <= i < |members| ==> ValidEntry(members[i])
  }

  predicate ValidPadded(p: Padded) {
    Blank(p.before) && ValidValue(p.value) && Blank(p.after)
  }

  predicate ValidEntry(e: Entry) {
    Blank(e.before) && ValidUnits(e.key) && Blank(e.after) && ValidPadded(e.value)
  }

  function UnitText(u: Unit): string {
    if u.Plain? then [u.c] else ['\\', u.c]
  }

  function UnitsText(units: seq<Unit>): string {
    if units == [] then "" else UnitText(units[0]) + UnitsText(units[1..])
  }

  function Quoted(units: seq<Unit>): string {
    "\"" + UnitsText(units) + "\""
  }

  function Render(v: Value): string
    decreases v, 1
  {
    match v
    case Literal(text) => text
    case Str(units) => Quoted(units)
    case Arr(blank, elements) => "[" + (if elements == [] then blank else RenderElements(elements)) + "]"
    case Obj(blank, members) => "{" + (if members == [] then blank else RenderMembers(members)) + "}"
  }

  function RenderPadded(p: Padded): string
    decreases p, 0
  {
    p.before + Render(p.value) + p.after
  }

  function RenderEntry(e: Entry): string
    decreases e, 0
  {
    e.before + Quoted(e.key) + e.after + ":" + RenderPadded(e.value)
  }

  function RenderElements(elements: seq<Padded>): string
    decreases elements, 0
  {
    if elements == [] then ""
    else RenderPadded(elements[0]) + (if |elements| > 1 then "," else "") + RenderElements(elements[1..])
  }

  function RenderMembers(members: seq<Entry>): string
    decreases members, 0
  {
    if members == [] then ""
    else RenderEntry(members[0]) + (if |members| > 1 then "," else "") + RenderMembers(members[1..])
  }

  function Max(a: nat, b: nat): nat {
    if a >= b then a else b
  }

  /** How deep containers nest: 0 for a scalar. */
  function Depth(v: Value): nat
    decreases v, 1
  {
    match v
    case Arr(_, elements) => 1 + ElementsDepth(elements)
    case Obj(_, members) => 1 + MembersDepth(members)
    case _ => 0
  }

  function PaddedDepth(p: Padded): nat
    decreases p, 0
  {
    Depth(p.value)
  }

  function EntryDepth(e: Entry): nat
    decreases e, 0
  {
    PaddedDepth(e.value)
  }

  function ElementsDepth(elements: seq<Padded>): nat
    decreases elements, 0
  {
    if elements == [] then 0 else Max(PaddedDepth(elements[0]), ElementsDepth(elements[1..]))
  }

  function MembersDepth(members: seq<Entry>): nat
    decreases members, 0
  {
    if members == [] then 0 else Max(EntryDepth(members[0]), MembersDepth(members[1..]))
  }

  // ----- scanning a rendered text -----

  lemma {:induction false} ScanConcat(s: Scan, a: string, b: string)
    ensures ScanFrom(s, a + b) == ScanFrom(ScanFrom(s, a), b)
    decreases |a|
  {
    if a == [] {
      assert a + b == b;
    } else {
      assert (a + b)[1..] == a[1..] + b;
      ScanConcat(Next(s, a[0]), a[1..], b);
    }
  }

  /** Text without structure leaves an unquoted scan where it is. */
  predicate Inert(s: string) {
    forall i :: 0 <= i < |s| ==> s[i] != '\"' && s[i] != '{' && s[i] != '}' && s[i] != '[' && s[i] != ']'
  }

  lemma {:induction false} InertScan(s: string, d: int)
    requires Inert(s)
    ensures ScanFrom(At(d, false, false), s) == At(d, false, false)
  {
    if s != [] {
      InertScan(s[1..], d);
    }
  }

  lemma {:induction false} UnitsScan(units: seq<Unit>, d: int)
    requires ValidUnits(units)
    ensures ScanFrom(At(d, true, false), UnitsText(units)) == At(d, true, false)
  {
    if units != [] {
      var u := units[0];
      UnitsScan(units[1..], d);
      ScanConcat(At(d, true, false), UnitText(u), UnitsText(units[1..]));
      assert UnitText(u)[1..] == if u.Plain? then [] else [u.c];
      assert u.Escape? ==> [u.c][1..] == [];
    }
  }

  lemma OneChar(s: Scan, c: char)
    ensures ScanFrom(s, [c]) == Next(s, c)
  {
    assert [c][1..] == [];
  }

  lemma QuotedScan(units: seq<Unit>, d: int)
    requires ValidUnits(units)
    ensures ScanFrom(At(d, false, false), Quoted(units)) == At(d, false, false)
  {
    hide Next, UnitsText;
    OneChar(At(d, false, false), '\"');
    ScanConcat(At(d, false, false), "\"", UnitsText(units));
    UnitsScan(units, d);
    ScanConcat(At(d, false, false), "\"" + UnitsText(units), "\"");
    OneChar(At(d, true, false), '\"');
    QuoteToggles(d);
  }

  lemma QuoteToggles(d: int)
    ensures Next(At(d, false, false), '\"') == At(d, true, false)
    ensures Next(At(d, true, false), '\"') == At(d, false, false)
  {
  }

  /** Where a text of nesting `n` leaves a scan that stands at depth `d`. */
  function Passed(d: int, n: nat): Scan {
    if d + n > MAX_DEPTH then TooDeep else At(d, false, false)
  }

  /** Two texts in a row, each passing at its own nesting. */
  lemma InARow(d: int, a: string, m: nat, b: string, n: nat)
    requires d <= MAX_DEPTH
    requires ScanFrom(At(d, false, false), a) == Passed(d, m)
    requires ScanFrom(At(d, false, false), b) == Passed(d, n)
    ensures ScanFrom(At(d, false, false), a + b) == Passed(d, Max(m, n))
  {
    hide ScanFrom;
    ScanConcat(At(d, false, false), a, b);
    StaysTooDeep(b);
  }

  lemma {:induction false} ValueScan(v: Value, d: int)
    requires ValidValue(v) && d <= MAX_DEPTH
    ensures ScanFrom(At(d, false, false), Render(v)) == Passed(d, Depth(v))
    decreases v, 1
  {
    hide ScanFrom, RenderElements, RenderMembers, Quoted, ElementsDepth, MembersDepth;
    match v
    case Literal(text) => InertScan(text, d);
    case Str(units) => QuotedScan(units, d);
    case Arr(blank, elements) =>
      if elements == [] {
        InertScan(blank, d + 1);
        NoElements();
      } else if d < MAX_DEPTH {
        ElementsScan(elements, d + 1);
      }
      ContainerScan('[', ']', if elements == [] then blank else RenderElements(elements), ElementsDepth(elements), d);
    case Obj(blank, members) =>
      if members == [] {
        InertScan(blank, d + 1);
        NoElements();
      } else if d < MAX_DEPTH {
        MembersScan(members, d + 1);
      }
      ContainerScan('{', '}', if members == [] then blank else RenderMembers(members), MembersDepth(members), d);
  }

  lemma NoElements()
    ensures ElementsDepth([]) == 0 && MembersDepth([]) == 0
  {
  }

  lemma ContainerScan(open: char, close: char, inner: string, n: nat, d: int)
    requires (open == '[' && close == ']') || (open == '{' && close == '}')
    requires d <= MAX_DEPTH
    requires d < MAX_DEPTH ==> ScanFrom(At(d + 1, false, false), inner) == Passed(d + 1, n)
    ensures ScanFrom(At(d, false, false), [open] + inner + [close]) == Passed(d, 1 + n)
  {
    hide ScanFrom;
    var start := At(d, false, false);
    OneChar(start, open);
    ScanConcat(start, [open], inner);
    ScanConcat(start, [open] + inner, [close]);
    StaysTooDeep(inner);
    StaysTooDeep([close]);
    OneChar(At(d + 1, false, false), close);
  }

  lemma {:induction false} PaddedScan(p: Padded, d: int)
    requires ValidPadded(p) && d <= MAX_DEPTH
    ensures ScanFrom(At(d, false, false), RenderPadded(p)) == Passed(d, PaddedDepth(p))
    decreases p, 0
  {
    hide ScanFrom, Render, Depth;
    InertScan(p.before, d);
    InertScan(p.after, d);
    ValueScan(p.value, d);
    InARow(d, p.before, 0, Render(p.value), Depth(p.value));
    InARow(d, p.before + Render(p.value), Depth(p.value), p.after, 0);
  }

  lemma {:induction false} EntryScan(e: Entry, d: int)
    requires ValidEntry(e) && d <= MAX_DEPTH
    ensures ScanFrom(At(d, false, false), RenderEntry(e)) == Passed(d, EntryDepth(e))
    decreases e, 0
  {
    hide ScanFrom, RenderPadded, PaddedDepth, Quoted;
    InertScan(e.before, d);
    QuotedScan(e.key, d);
    InertScan(e.after, d);
    InertScan(":", d);
    PaddedScan(e.value, d);
    InARow(d, e.before, 0, Quoted(e.key), 0);
    InARow(d, e.before + Quoted(e.key), 0, e.after, 0);
    InARow(d, e.before + Quoted(e.key) + e.after, 0, ":", 0);
    InARow(d, e.before + Quoted(e.key) + e.after + ":", 0, RenderPadded(e.value), PaddedDepth(e.value));
  }

  lemma {:induction false} ElementsScan(elements: seq<Padded>, d: int)
    requires (forall i :: 0 <= i < |elements| ==> ValidPadded(elements[i])) && d <= MAX_DEPTH
    ensures ScanFrom(At(d, false, false), RenderElements(elements)) == Passed(d, ElementsDepth(elements))
    decreases elements, 0
  {
    hide RenderPadded, PaddedDepth, ValidPadded;
    if elements != [] {
      PaddedScan(elements[0], d);
      ElementsScan(elements[1..], d);
      var comma := if |elements| > 1 then "," else "";
      InertScan(comma, d);
      InARow(d, RenderPadded(elements[0]), PaddedDepth(elements[0]), comma, 0);
      InARow(d, RenderPadded(elements[0]) + comma, PaddedDepth(elements[0]), RenderElements(elements[1..]), ElementsDepth(elements[1..]));
    }
  }

  lemma {:induction false} MembersScan(members: seq<Entry>, d: int)
    requires (forall i :: 0 <= i < |members| ==> ValidEntry(members[i])) && d <= MAX_DEPTH
    ensures ScanFrom(At(d, false, false), RenderMembers(members)) == Passed(d, MembersDepth(members))
    decreases members, 0
  {
    hide RenderEntry, EntryDepth, ValidEntry;
    if members != [] {
      EntryScan(members[0], d);
      MembersScan(members[1..], d);
      var comma := if |members| > 1 then "," else "";
      InertScan(comma, d);
      InARow(d, RenderEntry(members[0]), EntryDepth(members[0]), comma, 0);
      InARow(d, RenderEntry(members[0]) + comma, EntryDepth(members[0]), RenderMembers(members[1..]), MembersDepth(members[1..]));
    }
  }

  /** For every JSON text the scanner lets it through exactly when its containers nest at most 32 deep. */
  lemma ScannerDecidesDepth(document: Padded)
    requires ValidPadded(document)
    ensures ScanFrom(At(0, false, false), RenderPadded(document)) != TooDeep <==> Depth(document.value) <= MAX_DEPTH
  {
    PaddedScan(document, 0);
    hide Depth, RenderPadded;
  }
}
