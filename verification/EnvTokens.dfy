/** Honeytokens in an environment variable: "name[@namespace]:key=value[,key=value]" entries between semicolons. */
module EnvTokens {
  import opened Sums
  import opened Text
  import opened Names

  const MAX_BYTES := 0x1_0000
  const MAX_TOKENS := 64

  datatype Token = Token(name: string, namespace: string, data: map<string, string>)

  /** Errors name the entry by its number and never repeat its contents. */
  datatype ParseError =
    | TooLong | NoEntries | TooManyEntries
    | NoSeparator(index: nat) | MalformedPair(index: nat) | RepeatedKey(index: nat)
  datatype Result<T> = Ok(value: T) | Err(error: ParseError)

  // ----- the parser -----

  datatype CutResult = CutResult(before: string, after: string, found: bool)

  function Cut(s: string, sep: char): CutResult {
    var i := Find(s, sep);
    if i == |s| then CutResult(s, "", false) else CutResult(s[..i], s[i + 1..], true)
  }

  function ParsePairs(pairs: seq<string>, fields: map<string, string>, index: nat): Result<map<string, string>>
    decreases |pairs|
  {
    if pairs == [] then Ok(fields)
    else
      var cut := Cut(pairs[0], '=');
      var key := TrimSpace(cut.before);
      if !cut.found || key == "" then Err(MalformedPair(index))
      else if key in fields then Err(RepeatedKey(index))
      else ParsePairs(pairs[1..], fields[key := cut.after], index)
  }

  /** One trimmed, non-empty entry. */
  function ParseEntry(entry: string, index: nat): Result<Token> {
    var cut := Cut(entry, ':');
    if !cut.found then Err(NoSeparator(index))
    else
      var head := Cut(TrimSpace(cut.before), '@');
      match ParsePairs(Split(cut.after, ','), map[], index)
      case Err(e) => Err(e)
      case Ok(fields) => Ok(Token(head.before, head.after, fields))
  }

  function ParseEntries(entries: seq<string>, tokens: seq<Token>): Result<seq<Token>>
    decreases |entries|
  {
    if entries == [] then Ok(tokens)
    else
      var entry := TrimSpace(entries[0]);
      if entry == "" then ParseEntries(entries[1..], tokens)
      else if |tokens| >= MAX_TOKENS then Err(TooManyEntries)
      else
        match ParseEntry(entry, |tokens| + 1)
        case Err(e) => Err(e)
        case Ok(token) => ParseEntries(entries[1..], tokens + [token])
  }

  function Parse(value: string): Result<seq<Token>> {
    if |value| > MAX_BYTES then Err(TooLong)
    else
      match ParseEntries(Split(value, ';'), [])
      case Err(e) => Err(e)
      case Ok(tokens) => if tokens == [] then Err(NoEntries) else Ok(tokens)
  }

  method ParseFields(data: string, index: nat) returns (r: Result<map<string, string>>)
    ensures r == ParsePairs(Split(data, ','), map[], index)
  {
    hide Split, Cut, TrimSpace;
    var fields: map<string, string> := map[];
    var pairs := Split(data, ',');
    for i := 0 to |pairs|
      invariant ParsePairs(pairs, map[], index) == ParsePairs(pairs[i..], fields, index)
    {
      assert pairs[i..][0] == pairs[i] && pairs[i..][1..] == pairs[i + 1..];
      var cut := Cut(pairs[i], '=');
      var key := TrimSpace(cut.before);
      if !cut.found || key == "" {
        return Err(MalformedPair(index));
      }
      if key in fields {
        return Err(RepeatedKey(index));
      }
      fields := fields[key := cut.after];
    }
    r := Ok(fields);
  }

  method ParseEnvHoneytokens(value: string) returns (r: Result<seq<Token>>)
    ensures r == Parse(value)
  {
    hide Split, Cut, TrimSpace, ParsePairs;
    if |value| > MAX_BYTES {
      return Err(TooLong);
    }
    var tokens: seq<Token> := [];
    var entries := Split(value, ';');
    for i := 0 to |entries|
      invariant ParseEntries(entries, []) == ParseEntries(entries[i..], tokens)
    {
      assert entries[i..][0] == entries[i] && entries[i..][1..] == entries[i + 1..];
      var entry := TrimSpace(entries[i]);
      if entry == "" {
        continue;
      }
      if |tokens| >= MAX_TOKENS {
        return Err(TooManyEntries);
      }
      var index := |tokens| + 1;
      var cut := Cut(entry, ':');
      if !cut.found {
        return Err(NoSeparator(index));
      }
      var head := Cut(TrimSpace(cut.before), '@');
      var fields := ParseFields(cut.after, index);
      if fields.Err? {
        return Err(fields.error);
      }
      tokens := tokens + [Token(head.before, head.after, fields.value)];
    }
    if tokens == [] {
      return Err(NoEntries);
    }
    r := Ok(tokens);
  }

  // ----- the printer -----

  type Pair = (string, string)

  /** A token with its data in the order it is written out. */
  datatype Spelled = Spelled(name: string, namespace: string, pairs: seq<Pair>)

  function TokenOf(t: Spelled): Token {
    Token(t.name, t.namespace, MapOf(t.pairs))
  }

  function PairText(p: Pair): string {
    p.0 + "=" + p.1
  }

  function PairTexts(pairs: seq<Pair>): (r: seq<string>)
    ensures |r| == |pairs| && forall i :: 0 <= i < |r| ==> r[i] == PairText(pairs[i])
  {
    seq(|pairs|, i requires 0 <= i < |pairs| => PairText(pairs[i]))
  }

  function HeadText(t: Spelled): string {
    if t.namespace == "" then t.name else t.name + "@" + t.namespace
  }

  function EntryText(t: Spelled): string {
    HeadText(t) + ":" + Join(PairTexts(t.pairs), ',')
  }

  function EntryTexts(ts: seq<Spelled>): (r: seq<string>)
    ensures |r| == |ts| && forall i :: 0 <= i < |r| ==> r[i] == EntryText(ts[i])
  {
    seq(|ts|, i requires 0 <= i < |ts| => EntryText(ts[i]))
  }

  function Print(ts: seq<Spelled>): string {
    Join(EntryTexts(ts), ';')
  }

  /** What the documentation asks of a token: Kubernetes names and keys, values without ',' and ';'. */
  predicate Printable(t: Spelled) {
    && DnsSubdomain(t.name)
    && (t.namespace == "" || DnsLabel(t.namespace))
    && t.pairs != []
    && (forall i :: 0 <= i < |t.pairs| ==> DataKey(t.pairs[i].0) && ',' !in t.pairs[i].1 && ';' !in t.pairs[i].1)
    && (forall i, j :: 0 <= i < j < |t.pairs| ==> t.pairs[i].0 != t.pairs[j].0)
  }

  // ----- trimming -----

  ghost predicate SpaceAt(s: string, k: nat) {
    k <= |s| && IsSpace(s[|s| - k..])
  }

  lemma SpaceBackReads(s: string)
    ensures SpaceBack(s) == if SpaceAt(s, 1) then 1 else if SpaceAt(s, 2) then 2 else if SpaceAt(s, 3) then 3 else 0
  {
    hide IsSpace;
  }

  lemma SpaceTail(a: string, b: string, k: nat)
    requires a != "" && Solid(a[|a| - 1]) && k >= 1
    ensures SpaceAt(a + b, k) <==> SpaceAt(b, k)
  {
    hide IsSpace, Solid;
    if k <= |a + b| {
      var tail := (a + b)[|a + b| - k..];
      if k <= |b| {
        assert tail == b[|b| - k..];
      } else {
        assert tail[k - |b| - 1] == a[|a| - 1];
        if IsSpace(tail) {
          SpaceBytes(tail);
        }
      }
    }
  }

  lemma SpaceBackAppend(a: string, b: string)
    requires a != "" && Solid(a[|a| - 1]) && b != ""
    ensures SpaceBack(a + b) == SpaceBack(b)
  {
    hide SpaceAt, Solid, SpaceBack;
    SpaceTail(a, b, 1);
    SpaceTail(a, b, 2);
    SpaceTail(a, b, 3);
    SpaceBackReads(a + b);
    SpaceBackReads(b);
  }

  lemma {:induction false} TrimRightAppend(a: string, b: string)
    requires a != "" && Solid(a[|a| - 1])
    ensures TrimRight(a + b) == a + TrimRight(b)
    decreases |b|
  {
    hide SpaceBack, Solid;
    if b == "" {
      assert a + b == a;
      SolidBack(a);
    } else {
      SpaceBackAppend(a, b);
      var w := SpaceBack(b);
      if w > 0 {
        assert (a + b)[..|a + b| - w] == a + b[..|b| - w];
        TrimRightAppend(a, b[..|b| - w]);
      }
    }
  }

  lemma NoneIn(s: string, c: char)
    requires (forall i :: 0 <= i < |s| ==> DataKeyChar(s[i])) && !DataKeyChar(c)
    ensures c !in s
  {
  }

  lemma NameCharSolid(c: char)
    requires DataKeyChar(c)
    ensures Solid(c)
  {
  }

  // ----- reading what was printed -----

  lemma CutAt(before: string, sep: char, after: string)
    requires sep !in before
    ensures Cut(before + [sep] + after, sep) == CutResult(before, after, true)
  {
    var s := before + [sep] + after;
    assert s[..|before|] == before;
    FindUnique(s, sep, |before|);
  }

  /** The data that survives: the last value loses its trailing white space with the entry's. */
  function Trimmed(pairs: seq<Pair>): seq<Pair> {
    if pairs == [] then [] else pairs[|pairs| - 1 := (pairs[|pairs| - 1].0, TrimRight(pairs[|pairs| - 1].1))]
  }

  function Kept(t: Spelled): Spelled {
    t.(pairs := Trimmed(t.pairs))
  }

  lemma {:induction false} PairsRead(pairs: seq<Pair>, n: nat, index: nat)
    requires n <= |pairs|
    requires forall i :: 0 <= i < |pairs| ==> DataKey(pairs[i].0)
    requires forall i, j :: 0 <= i < j < |pairs| ==> pairs[i].0 != pairs[j].0
    ensures ParsePairs(PairTexts(pairs)[n..], MapOf(pairs[..n]), index) == Ok(MapOf(pairs))
    decreases |pairs| - n
  {
    var texts := PairTexts(pairs);
    if n == |pairs| {
      assert pairs[..n] == pairs && texts[n..] == [];
    } else {
      var p := pairs[n];
      KeyRead(p);
      DataKeys(pairs, n);
      assert pairs[..n + 1][..n] == pairs[..n];
      assert texts[n..][1..] == texts[n + 1..];
      PairsRead(pairs, n + 1, index);
      hide Cut, TrimSpace, DataKey;
    }
  }

  lemma KeyRead(p: Pair)
    requires DataKey(p.0)
    ensures Cut(PairText(p), '=') == CutResult(p.0, p.1, true)
    ensures TrimSpace(p.0) == p.0 && p.0 != ""
  {
    NoneIn(p.0, '=');
    CutAt(p.0, '=', p.1);
    NameCharSolid(p.0[0]);
    NameCharSolid(p.0[|p.0| - 1]);
    TrimKeeps(p.0);
    hide TrimSpace, Solid;
  }

  lemma {:induction false} DataKeys(pairs: seq<Pair>, n: nat)
    requires n < |pairs| && forall i, j :: 0 <= i < j < |pairs| ==> pairs[i].0 != pairs[j].0
    ensures pairs[n].0 !in MapOf(pairs[..n])
  {
    KeysBelow(pairs, n);
  }

  lemma {:induction false} KeysBelow(pairs: seq<Pair>, n: nat)
    requires n <= |pairs|
    ensures forall k :: k in MapOf(pairs[..n]) ==> exists i :: 0 <= i < n && pairs[i].0 == k
  {
    if n > 0 {
      KeysBelow(pairs, n - 1);
      assert pairs[..n][..n - 1] == pairs[..n - 1];
    }
  }

  lemma HeadRead(t: Spelled)
    requires Printable(t)
    ensures ':' !in HeadText(t) && ';' !in HeadText(t) && HeadText(t) != "" && Solid(HeadText(t)[0])
    ensures TrimSpace(HeadText(t)) == HeadText(t)
    ensures Cut(HeadText(t), '@').before == t.name && Cut(HeadText(t), '@').after == t.namespace
  {
    hide TrimSpace;
    SubdomainChars(t.name);
    NoneIn(t.name, '@');
    NoneIn(t.name, ':');
    NoneIn(t.name, ';');
    NameCharSolid(t.name[0]);
    NameCharSolid(t.name[|t.name| - 1]);
    hide Solid, DnsSubdomain;
    if t.namespace == "" {
      assert t.name[..|t.name|] == t.name;
      FindUnique(t.name, '@', |t.name|);
    } else {
      assert forall i :: 0 <= i < |t.namespace| ==> DataKeyChar(t.namespace[i]);
      NoneIn(t.namespace, ':');
      NoneIn(t.namespace, ';');
      NameCharSolid(t.namespace[|t.namespace| - 1]);
      CutAt(t.name, '@', t.namespace);
      assert HeadText(t) == t.name + ['@'] + t.namespace;
    }
    TrimKeeps(HeadText(t));
  }

  lemma {:induction false} JoinLast(parts: seq<string>, sep: char)
    requires parts != []
    ensures Join(parts, sep) == (if |parts| == 1 then "" else Join(parts[..|parts| - 1], sep) + [sep]) + parts[|parts| - 1]
  {
    if |parts| > 1 {
      JoinLast(parts[1..], sep);
      assert parts[1..][..|parts| - 2] == parts[..|parts| - 1][1..];
      if |parts| > 2 {
        assert Join(parts[..|parts| - 1], sep) == parts[0] + [sep] + Join(parts[..|parts| - 1][1..], sep);
      } else {
        assert parts[..1] == [parts[0]];
      }
    }
  }

  /** A printed entry up to the equals sign of its last pair. */
  function Front(t: Spelled): string
    requires t.pairs != []
  {
    var n := |t.pairs| - 1;
    HeadText(t) + ":" + (if n == 0 then "" else Join(PairTexts(t.pairs)[..n], ',') + [',']) + t.pairs[n].0 + "="
  }

  lemma EntryShape(t: Spelled)
    requires t.pairs != []
    ensures EntryText(t) == Front(t) + t.pairs[|t.pairs| - 1].1
  {
    JoinLast(PairTexts(t.pairs), ',');
    hide Join, HeadText;
  }

  lemma SameHead(t: Spelled)
    ensures HeadText(Kept(t)) == HeadText(t)
  {
  }

  lemma SameFront(t: Spelled)
    requires t.pairs != []
    ensures Front(Kept(t)) == Front(t)
  {
    hide TrimRight, HeadText, Join;
    assert PairTexts(Kept(t).pairs)[..|t.pairs| - 1] == PairTexts(t.pairs)[..|t.pairs| - 1];
    SameHead(t);
  }

  /** Trimming a printed entry only trims the end of its last value. */
  lemma EntryTrims(t: Spelled)
    requires Printable(t)
    ensures TrimSpace(EntryText(t)) == EntryText(Kept(t))
  {
    hide Solid, Printable, Join, TrimRight, EntryText, PairTexts;
    EntryHead(t);
    EntryShape(t);
    EntryShape(Kept(t));
    SameFront(t);
    EqualsSolid();
    assert Front(t)[|Front(t)| - 1] == '=';
    assert Front(t)[0] == HeadText(t)[0];
    TrimRightAppend(Front(t), t.pairs[|t.pairs| - 1].1);
  }

  lemma EntryHead(t: Spelled)
    requires Printable(t)
    ensures t.pairs != [] && HeadText(t) != "" && Solid(HeadText(t)[0])
  {
    HeadRead(t);
  }

  lemma EqualsSolid()
    ensures Solid('=')
  {
  }

  lemma {:induction false} JoinFree(parts: seq<string>, sep: char, c: char)
    requires c != sep && forall i :: 0 <= i < |parts| ==> c !in parts[i]
    ensures c !in Join(parts, sep)
  {
    if |parts| > 1 {
      JoinFree(parts[1..], sep, c);
    }
  }

  lemma {:induction false} TrimRightShortens(s: string)
    ensures TrimRight(s) <= s
  {
    if SpaceBack(s) > 0 {
      TrimRightShortens(s[..|s| - SpaceBack(s)]);
    }
  }

  lemma KeptPrintable(t: Spelled)
    requires Printable(t)
    ensures Printable(Kept(t))
  {
    hide DnsSubdomain, DnsLabel, DataKey, TrimRight;
    var last := t.pairs[|t.pairs| - 1];
    TrimRightShortens(last.1);
    assert forall i :: 0 <= i < |t.pairs| ==> Kept(t).pairs[i].0 == t.pairs[i].0;
    assert forall c :: c in TrimRight(last.1) ==> c in last.1;
  }

  lemma PairTextFree(p: Pair, c: char)
    requires DataKey(p.0) && c !in p.1 && (c == ',' || c == ';')
    ensures c !in PairText(p)
  {
    NoneIn(p.0, c);
  }

  lemma EntryRead(t: Spelled, index: nat)
    requires Printable(t)
    ensures ParseEntry(EntryText(t), index) == Ok(TokenOf(t))
    ensures ';' !in EntryText(t) && EntryText(t) != ""
  {
    hide DnsSubdomain, DnsLabel, DataKey, Solid, TrimSpace;
    HeadRead(t);
    var texts := PairTexts(t.pairs);
    forall i | 0 <= i < |texts| ensures ',' !in texts[i] && ';' !in texts[i] {
      PairTextFree(t.pairs[i], ',');
      PairTextFree(t.pairs[i], ';');
    }
    JoinFree(texts, ',', ';');
    CutAt(HeadText(t), ':', Join(texts, ','));
    assert EntryText(t) == HeadText(t) + [':'] + Join(texts, ',');
    SplitJoin(texts, ',');
    PairsRead(t.pairs, 0, index);
    assert texts[0..] == texts && t.pairs[..0] == [] && MapOf(t.pairs[..0]) == map[];
    hide Cut, Join, Split, PairTexts, HeadText;
  }

  function KeptTokens(ts: seq<Spelled>): (r: seq<Token>)
    ensures |r| == |ts| && forall i :: 0 <= i < |r| ==> r[i] == TokenOf(Kept(ts[i]))
  {
    seq(|ts|, i requires 0 <= i < |ts| => TokenOf(Kept(ts[i])))
  }

  lemma {:induction false} EntriesRead(ts: seq<Spelled>, n: nat)
    requires n <= |ts| <= MAX_TOKENS && forall i :: 0 <= i < |ts| ==> Printable(ts[i])
    ensures ParseEntries(EntryTexts(ts)[n..], KeptTokens(ts)[..n]) == Ok(KeptTokens(ts))
    decreases |ts| - n
  {
    hide ParseEntry, TrimSpace, Kept, TokenOf, EntryText, Printable;
    var texts, tokens := EntryTexts(ts), KeptTokens(ts);
    if n == |ts| {
      assert tokens[..n] == tokens && texts[n..] == [];
    } else {
      EntryStep(ts[n], n + 1);
      assert texts[n..][1..] == texts[n + 1..];
      assert tokens[..n] + [tokens[n]] == tokens[..n + 1];
      EntriesRead(ts, n + 1);
    }
  }

  lemma EntryStep(t: Spelled, index: nat)
    requires Printable(t)
    ensures TrimSpace(EntryText(t)) != "" && t.pairs != []
    ensures ParseEntry(TrimSpace(EntryText(t)), index) == Ok(TokenOf(Kept(t)))
  {
    EntryTrims(t);
    KeptPrintable(t);
    EntryRead(Kept(t), index);
    hide ParseEntry, TrimSpace, Kept, TokenOf, EntryText;
  }

  /**
   * Parsing what was printed gives the tokens back, whatever the order of their data, except
   * that each token's last value loses its trailing white space.
   */
  lemma PrintThenParse(ts: seq<Spelled>)
    requires 1 <= |ts| <= MAX_TOKENS && forall i :: 0 <= i < |ts| ==> Printable(ts[i])
    requires |Print(ts)| <= MAX_BYTES
    ensures Parse(Print(ts)) == Ok(KeptTokens(ts))
  {
    hide ParseEntries, EntryText, Printable;
    var texts := EntryTexts(ts);
    forall i | 0 <= i < |texts| ensures ';' !in texts[i] {
      EntryRead(ts[i], 1);
    }
    SplitJoin(texts, ';');
    EntriesRead(ts, 0);
    assert texts[0..] == texts && KeptTokens(ts)[..0] == [];
  }

  /** A spelling of a token writes its data in some order; which one makes no difference. */
  lemma SpellingsAgree(t: Spelled, token: Token)
    requires t.name == token.name && t.namespace == token.namespace && Lists(t.pairs, token.data)
    ensures TokenOf(t) == token
  {
    MapOfEntries(t.pairs, token.data);
  }

  predicate EndsInSpace(t: Spelled) {
    t.pairs != [] && SpaceBack(t.pairs[|t.pairs| - 1].1) > 0
  }

  lemma KeptWhole(t: Spelled)
    requires Printable(t)
    ensures TokenOf(Kept(t)) == TokenOf(t) <==> !EndsInSpace(t)
  {
    var n := |t.pairs| - 1;
    var last := t.pairs[n];
    TrimRightShortens(last.1);
    assert Kept(t).pairs[..n] == t.pairs[..n];
    assert TokenOf(Kept(t)).data[last.0] == TrimRight(last.1);
    assert TokenOf(t).data[last.0] == last.1;
    TrimRightMoves(last.1);
    hide Printable, SpaceBack;
  }

  lemma TrimRightMoves(s: string)
    ensures TrimRight(s) == s <==> SpaceBack(s) == 0
  {
    if SpaceBack(s) > 0 {
      TrimRightShortens(s[..|s| - SpaceBack(s)]);
    }
  }

  function TokensOf(ts: seq<Spelled>): (r: seq<Token>)
    ensures |r| == |ts| && forall i :: 0 <= i < |r| ==> r[i] == TokenOf(ts[i])
  {
    seq(|ts|, i requires 0 <= i < |ts| => TokenOf(ts[i]))
  }

  /** So the tokens come back unchanged exactly when no token's last value ends in white space. */
  lemma RoundTripExactly(ts: seq<Spelled>)
    requires 1 <= |ts| <= MAX_TOKENS && forall i :: 0 <= i < |ts| ==> Printable(ts[i])
    requires |Print(ts)| <= MAX_BYTES
    ensures Parse(Print(ts)) == Ok(TokensOf(ts)) <==> forall i :: 0 <= i < |ts| ==> !EndsInSpace(ts[i])
  {
    PrintThenParse(ts);
    hide Parse, Print, Printable, EndsInSpace, TokenOf;
    forall i | 0 <= i < |ts| ensures KeptTokens(ts)[i] == TokensOf(ts)[i] <==> !EndsInSpace(ts[i]) {
      KeptWhole(ts[i]);
    }
    assert KeptTokens(ts) == TokensOf(ts) <==> forall i :: 0 <= i < |ts| ==> KeptTokens(ts)[i] == TokensOf(ts)[i];
  }

  /** Two tokens; the first one's value comes back without its last space. */
  lemma TrailingSpaceIsLost()
    ensures var t, u := Spelled("a", "", [("k", "v ")]), Spelled("b", "", [("k", "w")]);
      && Printable(t) && Printable(u) && |Print([t, u])| <= MAX_BYTES
      && Parse(Print([t, u])) != Ok(TokensOf([t, u]))
  {
    var t, u := Spelled("a", "", [("k", "v ")]), Spelled("b", "", [("k", "w")]);
    hide Parse, TokensOf, EntryText, Printable, SpaceBack;
    SmallEntry("a", "v ");
    SmallEntry("b", "w");
    SpaceLast("v");
    assert "v" + " " == "v ";
    var texts := EntryTexts([t, u]);
    assert texts[1..] == [EntryText(u)] && texts[0] == EntryText(t);
    assert Join(texts[1..], ';') == EntryText(u);
    assert Print([t, u]) == EntryText(t) + [';'] + EntryText(u);
    RoundTripExactly([t, u]);
    assert EndsInSpace([t, u][0]);
  }

  lemma SpaceLast(s: string)
    ensures SpaceBack(s + " ") == 1
  {
  }

  lemma SmallEntry(name: string, value: string)
    requires name == "a" || name == "b"
    requires |value| <= 2 && ',' !in value && ';' !in value
    ensures Printable(Spelled(name, "", [("k", value)])) && |EntryText(Spelled(name, "", [("k", value)]))| <= 6
  {
    assert Split(name, '.') == [name];
  }
}
