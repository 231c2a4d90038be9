/** The texts that encoding/json writes, in any order of members: what `EncodedLength` and `Coerce` are about. */
module Encoding {
  import opened Sums
  import opened Text
  import opened Utf8
  import opened Json

  // ----- strings -----

  /** The text of one valid sequence inside a string; HTML characters and line separators are escaped. */
  function RuneText(rune: string): string
    requires 1 <= |rune| <= 4
  {
    if |rune| > 1 then
      if rune == "\U{E2}\U{80}\U{A8}" then "\\u2028" else if rune == "\U{E2}\U{80}\U{A9}" then "\\u2029" else rune
    else
      var c := rune[0];
      if c == '\"' || c == '\\' then ['\\', c]
      else if c == '\n' then "\\n" else if c == '\r' then "\\r" else if c == '\t' then "\\t"
      else if c == '\U{8}' then "\\b" else if c == '\U{c}' then "\\f"
      else if c < ' ' || c == '<' || c == '>' || c == '&' then "\\u00" + [HexDigit(c as int / 16), HexDigit(c as int % 16)]
      else [c]
  }

  /** Bytes of no valid sequence are written as the replacement character. */
  function Body(s: string): string
    decreases |s|
  {
    if s == "" then ""
    else if RuneWidth(s) == 0 then "\\ufffd" + Body(s[1..])
    else RuneText(s[..RuneWidth(s)]) + Body(s[RuneWidth(s)..])
  }

  function Quoted(s: string): string {
    "\"" + Body(s) + "\""
  }

  lemma {:induction false} QuotedLength(s: string)
    ensures |Quoted(s)| == StringLength(s)
    decreases |s|
  {
    if s != "" {
      QuotedLength(s[if RuneWidth(s) == 0 then 1 else RuneWidth(s)..]);
    }
  }

  // ----- and how they are read -----

  function HexValue(c: char): (d: nat)
    ensures d < 16
  {
    if '0' <= c <= '9' then c as int - '0' as int
    else if 'a' <= c <= 'f' then c as int - 'a' as int + 10
    else if 'A' <= c <= 'F' then c as int - 'A' as int + 10
    else 0
  }

  /** A code point below 0x10000 in UTF-8. */
  function Utf8Of(point: nat): string
    requires point < 0x1_0000
  {
    if point < 0x80 then [point as char]
    else if point < 0x800 then [(0xC0 + point / 0x40) as char, (0x80 + point % 0x40) as char]
    else [(0xE0 + point / 0x1000) as char, (0x80 + point / 0x40 % 0x40) as char, (0x80 + point % 0x40) as char]
  }

  function PointOf(a: char, b: char, c: char, d: char): (point: nat)
    ensures point < 0x1_0000
  {
    HexValue(a) * 0x1000 + HexValue(b) * 0x100 + HexValue(c) * 0x10 + HexValue(d)
  }

  /** The character that an escape of two characters stands for. */
  function Escaped(c: char): char {
    match c
    case 'n' => '\n'
    case 'r' => '\r'
    case 't' => '\t'
    case 'b' => '\U{8}'
    case 'f' => '\U{c}'
    case _ => c
  }

  function Unescape(t: string): string
    decreases |t|
  {
    if t == "" then ""
    else if t[0] != '\\' || |t| == 1 then [t[0]] + Unescape(t[1..])
    else if t[1] == 'u' && |t| >= 6 then
      Utf8Of(PointOf(t[2], t[3], t[4], t[5])) + Unescape(t[6..])
    else [Escaped(t[1])] + Unescape(t[2..])
  }

  lemma UnescapeNothing()
    ensures Unescape("") == ""
  {
  }

  lemma {:induction false} UnescapePlain(plain: string, t: string)
    requires '\\' !in plain
    ensures Unescape(plain + t) == plain + Unescape(t)
    decreases |plain|
  {
    if plain == "" {
      assert plain + t == t;
    } else {
      UnescapePlain(plain[1..], t);
      assert (plain + t)[1..] == plain[1..] + t;
    }
  }

  lemma UnescapePoint(a: char, b: char, c: char, d: char, t: string)
    ensures Unescape(['\\', 'u', a, b, c, d] + t) == Utf8Of(PointOf(a, b, c, d)) + Unescape(t)
  {
    hide PointOf, Utf8Of;
    var all := ['\\', 'u', a, b, c, d] + t;
    assert all[6..] == t;
  }

  lemma UnescapePair(c: char, t: string)
    requires c != 'u'
    ensures Unescape(['\\', c] + t) == [Escaped(c)] + Unescape(t)
  {
    assert (['\\', c] + t)[2..] == t;
  }

  lemma HexRead(d: nat)
    requires d < 16
    ensures HexValue(HexDigit(d)) == d
  {
  }

  lemma ByteRead(c: char, t: string)
    requires c < '\U{80}'
    ensures RuneText([c]) != [c] ==> Unescape(RuneText([c]) + t) == [c] + Unescape(t)
    ensures RuneText([c]) == [c] ==> c != '\\'
  {
    hide Unescape;
    var text := RuneText([c]);
    if |text| == 2 {
      assert text == ['\\', text[1]];
      UnescapePair(text[1], t);
    } else if |text| == 6 {
      HexRead(c as int / 16);
      HexRead(c as int % 16);
      assert text == ['\\', 'u', '0', '0', text[4], text[5]];
      UnescapePoint('0', '0', text[4], text[5], t);
    }
  }

  /** The bytes of a sequence of several are all beyond ASCII. */
  lemma WidePlain(s: string)
    requires s != "" && RuneWidth(s) > 1
    ensures '\\' !in s[..RuneWidth(s)]
  {
  }

  lemma SeparatorsRead(t: string)
    ensures Unescape("\\u2028" + t) == "\U{E2}\U{80}\U{A8}" + Unescape(t)
    ensures Unescape("\\u2029" + t) == "\U{E2}\U{80}\U{A9}" + Unescape(t)
    ensures Unescape("\\ufffd" + t) == REPLACEMENT + Unescape(t)
  {
    hide Unescape;
    UnescapePoint('2', '0', '2', '8', t);
    UnescapePoint('2', '0', '2', '9', t);
    UnescapePoint('f', 'f', 'f', 'd', t);
  }

  lemma RuneRead(s: string, t: string)
    requires s != "" && RuneWidth(s) > 0
    ensures Unescape(RuneText(s[..RuneWidth(s)]) + t) == s[..RuneWidth(s)] + Unescape(t)
  {
    hide Unescape;
    var rune := s[..RuneWidth(s)];
    if |rune| == 1 {
      assert rune == [s[0]];
      ByteRead(s[0], t);
      if RuneText(rune) == rune {
        UnescapePlain(rune, t);
      }
    } else {
      WidePlain(s);
      SeparatorsRead(t);
      UnescapePlain(rune, t);
    }
  }

  /** Every string, whatever its bytes, is read back as `Coerce` says. */
  lemma {:induction false} QuotedReads(s: string)
    ensures Unescape(Body(s)) == Coerce(s)
    decreases |s|
  {
    hide Unescape, RuneText;
    if s == "" {
      UnescapeNothing();
    } else if RuneWidth(s) == 0 {
      QuotedReads(s[1..]);
      SeparatorsRead(Body(s[1..]));
    } else {
      QuotedReads(s[RuneWidth(s)..]);
      RuneRead(s, Body(s[RuneWidth(s)..]));
    }
  }

  // ----- whole values -----

  /** A value whose members stand in some order. */
  datatype Tree =
    | Leaf(j: Json)
    | Items(items: seq<Tree>)
    | Members(keys: seq<string>, values: seq<Tree>)
    | TextMembers(keys: seq<string>, texts: seq<string>)

  ghost predicate Distinct(keys: seq<string>) {
    forall i, j :: 0 <= i < j < |keys| ==> keys[i] != keys[j]
  }

  ghost predicate Ordered(t: Tree) {
    match t
    case Leaf(j) => !j.Arr? && !j.Obj? && !j.Texts?
    case Items(xs) => forall i :: 0 <= i < |xs| ==> Ordered(xs[i])
    case Members(keys, xs) => Distinct(keys) && |keys| == |xs| && forall i :: 0 <= i < |xs| ==> Ordered(xs[i])
    case TextMembers(keys, texts) => Distinct(keys) && |keys| == |texts|
  }

  function Paired<V>(keys: seq<string>, values: seq<V>): map<string, V>
    requires |keys| == |values|
  {
    MapOf(seq(|keys|, i requires 0 <= i < |keys| => (keys[i], values[i])))
  }

  function Value(t: Tree): Json
    requires Ordered(t)
  {
    match t
    case Leaf(j) => j
    case Items(xs) => Arr(seq(|xs|, i requires 0 <= i < |xs| => Value(xs[i])))
    case Members(keys, xs) => Obj(Paired(keys, seq(|xs|, i requires 0 <= i < |xs| => Value(xs[i]))))
    case TextMembers(keys, texts) => Texts(Paired(keys, texts))
  }

  function LeafText(j: Json): string {
    match j
    case Bool(b) => if b then "true" else "false"
    case Num(n) => n.text
    case Str(s) => Quoted(s)
    case _ => "null"
  }

  function Listed(texts: seq<string>): string {
    if texts == [] then "" else texts[0] + (if |texts| > 1 then "," else "") + Listed(texts[1..])
  }

  function Labelled(keys: seq<string>, texts: seq<string>): (r: seq<string>)
    requires |keys| == |texts|
    ensures |r| == |keys|
  {
    seq(|keys|, i requires 0 <= i < |keys| => Quoted(keys[i]) + ":" + texts[i])
  }

  function Rendered(t: Tree): string
    requires Ordered(t)
  {
    match t
    case Leaf(j) => LeafText(j)
    case Items(xs) => "[" + Listed(seq(|xs|, i requires 0 <= i < |xs| => Rendered(xs[i]))) + "]"
    case Members(keys, xs) => "{" + Listed(Labelled(keys, seq(|xs|, i requires 0 <= i < |xs| => Rendered(xs[i])))) + "}"
    case TextMembers(keys, texts) => "{" + Listed(Labelled(keys, seq(|texts|, i requires 0 <= i < |texts| => Quoted(texts[i])))) + "}"
  }

  lemma {:induction false} ItemsMeasured(texts: seq<string>, xs: seq<Json>)
    requires |texts| == |xs| && forall i :: 0 <= i < |xs| ==> |texts[i]| == EncodedLength(xs[i])
    ensures |Listed(texts)| == ItemsLength(xs)
    decreases |xs|
  {
    hide EncodedLength;
    if xs != [] {
      ItemsMeasured(texts[1..], xs[1..]);
    }
  }

  /** Entries under different keys make a map with just these. */
  lemma {:induction false} PairedReads<V(!new)>(keys: seq<string>, values: seq<V>)
    requires Distinct(keys) && |keys| == |values|
    ensures |Paired(keys, values)| == |keys|
    ensures forall k :: k in Paired(keys, values) <==> k in keys
    ensures forall i :: 0 <= i < |keys| ==> Paired(keys, values)[keys[i]] == values[i]
    decreases |keys|
  {
    hide Paired;
    if keys == [] {
      PairedNone(values);
    } else {
      var n := |keys| - 1;
      var before := Paired(keys[..n], values[..n]);
      PairedReads(keys[..n], values[..n]);
      PairedMore(keys, values);
      assert keys[n] !in before;
      SizeWith(before, keys[n], values[n]);
      assert forall k :: k in keys <==> k in keys[..n] || k == keys[n];
    }
  }

  lemma PairedNone<V>(values: seq<V>)
    requires values == []
    ensures Paired([], values) == map[]
  {
  }

  lemma PairedMore<V(!new)>(keys: seq<string>, values: seq<V>)
    requires |keys| == |values| && keys != []
    ensures var n := |keys| - 1; Paired(keys, values) == Paired(keys[..n], values[..n])[keys[n] := values[n]]
  {
    var n := |keys| - 1;
    var pairs := seq(|keys|, i requires 0 <= i < |keys| => (keys[i], values[i]));
    assert pairs[..n] == seq(n, i requires 0 <= i < n => (keys[..n][i], values[..n][i]));
  }

  lemma {:induction false} EntriesMeasured(texts: seq<string>, keys: seq<string>, w: map<string, int>)
    requires Distinct(keys) && |keys| == |texts| == |w|
    requires forall k :: k in w <==> k in keys
    requires forall i :: 0 <= i < |keys| ==> |texts[i]| == w[keys[i]]
    ensures |Listed(texts)| == Total(w) + Commas(|keys|)
    decreases |keys|
  {
    hide Total;
    if keys == [] {
      TotalNone(w);
    } else {
      KeysWithoutFirst(keys);
      SizeWithout(w, keys[0]);
      EntriesMeasured(texts[1..], keys[1..], w - {keys[0]});
      TotalRemove(w, keys[0]);
    }
  }

  lemma TotalNone(w: map<string, int>)
    requires |w| == 0
    ensures Total(w) == 0
  {
    assert w == map[];
  }

  lemma KeysWithoutFirst(keys: seq<string>)
    requires keys != [] && Distinct(keys)
    ensures Distinct(keys[1..]) && keys[0] !in keys[1..]
    ensures forall k :: k in keys <==> k == keys[0] || k in keys[1..]
  {
    assert keys == [keys[0]] + keys[1..];
  }

  lemma LabelledLength(keys: seq<string>, texts: seq<string>, i: nat)
    requires i < |keys| == |texts|
    ensures |Labelled(keys, texts)[i]| == StringLength(keys[i]) + 1 + |texts[i]|
  {
    QuotedLength(keys[i]);
  }

  lemma MembersMeasured(keys: seq<string>, xs: seq<Json>, texts: seq<string>)
    requires Distinct(keys) && |keys| == |xs| == |texts|
    requires forall i :: 0 <= i < |xs| ==> |texts[i]| == EncodedLength(xs[i])
    ensures 2 + |Listed(Labelled(keys, texts))| == EncodedLength(Obj(Paired(keys, xs)))
  {
    hide EncodedLength, StringLength, Labelled, Listed, MemberLengths;
    PairedReads(keys, xs);
    var m := Paired(keys, xs);
    hide Paired;
    var w := MemberLengths(Obj(m));
    assert |w.Keys| == |m.Keys|;
    forall i | 0 <= i < |keys| ensures |Labelled(keys, texts)[i]| == w[keys[i]] {
      LabelledLength(keys, texts, i);
      MemberWeight(m, keys[i]);
    }
    EntriesMeasured(Labelled(keys, texts), keys, w);
    ObjectLengthParts(m);
  }

  lemma TextsMeasured(keys: seq<string>, texts: seq<string>, quoted: seq<string>)
    requires Distinct(keys) && |keys| == |texts| == |quoted|
    requires forall i :: 0 <= i < |texts| ==> quoted[i] == Quoted(texts[i])
    ensures 2 + |Listed(Labelled(keys, quoted))| == EncodedLength(Texts(Paired(keys, texts)))
  {
    hide StringLength, Labelled, Listed, Quoted;
    PairedReads(keys, texts);
    var m := Paired(keys, texts);
    hide Paired;
    var w := TextLengths(m);
    assert |w.Keys| == |m.Keys|;
    forall i | 0 <= i < |keys| ensures |Labelled(keys, quoted)[i]| == w[keys[i]] {
      LabelledLength(keys, quoted, i);
      QuotedLength(texts[i]);
    }
    EntriesMeasured(Labelled(keys, quoted), keys, w);
  }

  /** In whatever order the members of a value are written, its text is as long as `EncodedLength` says. */
  lemma {:induction false} RenderedLength(t: Tree)
    requires Ordered(t)
    ensures |Rendered(t)| == EncodedLength(Value(t))
    decreases t, 1
  {
    match t
    case Leaf(j) =>
      if j.Str? {
        QuotedLength(j.text);
      }
    case Items(xs) => ItemsRendered(xs);
    case Members(keys, xs) => MembersRendered(keys, xs);
    case TextMembers(keys, texts) =>
      TextsMeasured(keys, texts, seq(|texts|, i requires 0 <= i < |texts| => Quoted(texts[i])));
  }

  lemma {:induction false} ItemsRendered(xs: seq<Tree>)
    requires Ordered(Items(xs))
    ensures |Rendered(Items(xs))| == EncodedLength(Value(Items(xs)))
    decreases Items(xs), 0
  {
    forall i | 0 <= i < |xs| ensures |Rendered(xs[i])| == EncodedLength(Value(xs[i])) {
      RenderedLength(xs[i]);
    }
    ItemsMeasured(seq(|xs|, i requires 0 <= i < |xs| => Rendered(xs[i])), Value(Items(xs)).items);
  }

  lemma {:induction false} MembersRendered(keys: seq<string>, xs: seq<Tree>)
    requires Ordered(Members(keys, xs))
    ensures |Rendered(Members(keys, xs))| == EncodedLength(Value(Members(keys, xs)))
    decreases Members(keys, xs), 0
  {
    forall i | 0 <= i < |xs| ensures |Rendered(xs[i])| == EncodedLength(Value(xs[i])) {
      RenderedLength(xs[i]);
    }
    MembersMeasured(keys, seq(|xs|, i requires 0 <= i < |xs| => Value(xs[i])), seq(|xs|, i requires 0 <= i < |xs| => Rendered(xs[i])));
  }

  // ----- every value has such a text -----

  lemma {:induction false} KeysInOrder(keys: set<string>) returns (listed: seq<string>)
    ensures Distinct(listed) && forall k :: k in listed <==> k in keys
    decreases keys
  {
    listed := [];
    if keys != {} {
      var k :| k in keys;
      var rest := KeysInOrder(keys - {k});
      listed := [k] + rest;
    }
  }

  lemma {:induction false} ItemTrees(j: Json, n: nat) returns (ts: seq<Tree>)
    requires j.Arr? && n <= |j.items|
    ensures |ts| == n && forall i :: 0 <= i < n ==> Ordered(ts[i]) && Value(ts[i]) == j.items[i]
    decreases j, 0, n
  {
    ts := [];
    if n > 0 {
      var before := ItemTrees(j, n - 1);
      var last := TreeOf(j.items[n - 1]);
      ts := before + [last];
    }
  }

  lemma {:induction false} MemberTrees(j: Json, keys: seq<string>) returns (ts: seq<Tree>)
    requires j.Obj? && forall i :: 0 <= i < |keys| ==> keys[i] in j.members
    ensures |ts| == |keys| && forall i :: 0 <= i < |keys| ==> Ordered(ts[i]) && Value(ts[i]) == j.members[keys[i]]
    decreases j, 0, |keys|
  {
    ts := [];
    if keys != [] {
      var n := |keys| - 1;
      var before := MemberTrees(j, keys[..n]);
      var last := TreeOf(j.members[keys[n]]);
      ts := before + [last];
    }
  }

  /** Any value can be written: its members can be put in an order. */
  lemma {:induction false} TreeOf(j: Json) returns (t: Tree)
    ensures Ordered(t) && Value(t) == j
    decreases j, 1, 0
  {
    match j
    case Arr(xs) =>
      var ts := ItemTrees(j, |xs|);
      t := Items(ts);
      assert Value(t).items == xs;
    case Obj(m) =>
      var keys := KeysInOrder(m.Keys);
      var ts := MemberTrees(j, keys);
      t := Members(keys, ts);
      SameMap(keys, seq(|ts|, i requires 0 <= i < |ts| => Value(ts[i])), m);
    case Texts(m) =>
      var keys := KeysInOrder(m.Keys);
      var texts := seq(|keys|, i requires 0 <= i < |keys| => m[keys[i]]);
      t := TextMembers(keys, texts);
      SameMap(keys, texts, m);
    case _ => t := Leaf(j);
  }

  lemma SameMap<V(!new)>(keys: seq<string>, values: seq<V>, m: map<string, V>)
    requires Distinct(keys) && |keys| == |values| && forall k :: k in keys <==> k in m
    requires forall i :: 0 <= i < |keys| ==> keys[i] in m && values[i] == m[keys[i]]
    ensures Paired(keys, values) == m
  {
    PairedReads(keys, values);
    hide Paired;
    var p := Paired(keys, values);
    forall k | k in m ensures k in p && p[k] == m[k] {
      var i :| 0 <= i < |keys| && keys[i] == k;
    }
  }
}
