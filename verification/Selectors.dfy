/** Label and field selectors over stored objects. */
module Selectors {
  import opened Json
  import opened Text
  import opened Utf8

  datatype Requirement = Requirement(key: string, operator: string, value: string)

  // ----- parsing -----

  datatype Parsed = Invalid | Valid(requirements: seq<Requirement>)

  function OperatorIn(text: string): string {
    if Search(text, "!=") < |text| then "!="
    else if Search(text, "==") < |text| then "=="
    else if '=' in text then "="
    else ""
  }

  function ParseRequirement(raw: string): Parsed {
    var text := TrimSpace(raw);
    var operator := OperatorIn(text);
    if operator == "" then Invalid
    else
      var i := Search(text, operator);
      var rest := text[i..];
      var key := TrimSpace(text[..i]);
      var value := TrimSpace(if |operator| <= |rest| then rest[|operator|..] else "");
      if key == "" || value == "" || '=' in value || '!' in value then Invalid
      else Valid([Requirement(key, operator, value)])
  }

  function ParseRequirements(raw: seq<string>): Parsed {
    if raw == [] then Valid([])
    else
      var first, rest := ParseRequirement(raw[0]), ParseRequirements(raw[1..]);
      if first.Invalid? || rest.Invalid? then Invalid else Valid(first.requirements + rest.requirements)
  }

  function ParseSelector(raw: string): Parsed {
    if TrimSpace(raw) == "" then Valid([]) else ParseRequirements(Split(raw, ','))
  }

  /** A selector that does not parse selects by nothing at all. */
  function Requirements(raw: string): seq<Requirement> {
    if ParseSelector(raw).Valid? then ParseSelector(raw).requirements else []
  }

  predicate ValidFieldSelector(raw: string) {
    ParseSelector(raw).Valid? &&
    forall i :: 0 <= i < |Requirements(raw)| ==> SourceOf(Requirements(raw)[i].key) != Unsupported
  }

  // ----- matching -----

  predicate MatchesRequirement(actual: string, present: bool, r: Requirement) {
    if r.operator == "!=" then !present || actual != r.value else present && actual == r.value
  }

  function LabelText(obj: Object, key: string): (string, bool) {
    TextOf(ObjectMap(Member(ObjectMap(Member(obj, "metadata")), "labels")), key)
  }

  predicate LabelMatches(obj: Object, r: Requirement) {
    var (actual, present) := LabelText(obj, r.key);
    MatchesRequirement(actual, present, r)
  }

  /** The object an Event is about, under either of its names. */
  function Involved(obj: Object): Object {
    var involved := ObjectMap(Member(obj, "involvedObject"));
    if involved == map[] then ObjectMap(Member(obj, "regarding")) else involved
  }

  /** Where a supported field lives; every other field key is refused. */
  datatype FieldSource = Section(section: string, key: string) | OfInvolved(key: string) | OfSource | Unsupported

  function SourceOf(key: string): FieldSource {
    if key == "metadata.name" then Section("metadata", "name")
    else if key == "metadata.namespace" then Section("metadata", "namespace")
    else if key == "status.phase" then Section("status", "phase")
    else if key == "spec.nodeName" then Section("spec", "nodeName")
    else if key == "involvedObject.name" || key == "regarding.name" then OfInvolved("name")
    else if key == "involvedObject.namespace" || key == "regarding.namespace" then OfInvolved("namespace")
    else if key == "involvedObject.kind" || key == "regarding.kind" then OfInvolved("kind")
    else if key == "reason" || key == "type" || key == "source.component" || key == "reportingComponent" then OfSource
    else Unsupported
  }

  function FieldValue(obj: Object, key: string, source: FieldSource): (string, bool) {
    match source
    case Section(section, field) => TextOf(ObjectMap(Member(obj, section)), field)
    case OfInvolved(field) => TextOf(Involved(obj), field)
    case OfSource =>
      if TextOf(obj, key).1 then TextOf(obj, key) else TextOf(ObjectMap(Member(obj, "source")), "component")
    case Unsupported => ("", false)
  }

  predicate FieldMatches(obj: Object, r: Requirement) {
    SourceOf(r.key) != Unsupported &&
    var (actual, present) := FieldValue(obj, r.key, SourceOf(r.key));
    MatchesRequirement(actual, present, r)
  }

  predicate Matches(obj: Object, labels: seq<Requirement>, fields: seq<Requirement>) {
    && (forall i :: 0 <= i < |labels| ==> LabelMatches(obj, labels[i]))
    && (forall i :: 0 <= i < |fields| ==> FieldMatches(obj, fields[i]))
  }

  method ObjectMatches(obj: Object, labels: seq<Requirement>, fields: seq<Requirement>) returns (ok: bool)
    ensures ok == Matches(obj, labels, fields)
  {
    for n := 0 to |labels|
      invariant forall i :: 0 <= i < n ==> LabelMatches(obj, labels[i])
    {
      if !LabelMatches(obj, labels[n]) {
        return false;
      }
    }
    for n := 0 to |fields|
      invariant forall i :: 0 <= i < n ==> FieldMatches(obj, fields[i])
    {
      if !FieldMatches(obj, fields[n]) {
        return false;
      }
    }
    return true;
  }

  lemma OneStep(obj: Object, key: string)
    ensures AtPath(Obj(obj), [key]) == Member(obj, key)
  {
    assert [key][1..] == [];
  }

  lemma OnPath(obj: Object, section: string, field: string, value: string)
    ensures AtPath(Obj(obj), [section, field]) == AtPath(Member(obj, section), [field])
    ensures TextOf(ObjectMap(Member(obj, section)), field) == (value, true) <==> AtPath(Obj(obj), [section, field]) == Str(value)
  {
    assert [section, field][1..] == [field] && [field][1..] == [];
  }

  /** `key=value` (or `==`) asks for that label, and `key!=value` for anything else, also for none. */
  lemma LabelMeaning(obj: Object, key: string, value: string)
    ensures LabelMatches(obj, Requirement(key, "=", value)) <==> AtPath(Obj(obj), ["metadata", "labels", key]) == Str(value)
    ensures LabelMatches(obj, Requirement(key, "==", value)) <==> AtPath(Obj(obj), ["metadata", "labels", key]) == Str(value)
    ensures LabelMatches(obj, Requirement(key, "!=", value)) <==> AtPath(Obj(obj), ["metadata", "labels", key]) != Str(value)
  {
    assert ["metadata", "labels", key][1..] == ["labels", key];
    OnPath(ObjectMap(Member(obj, "metadata")), "labels", key, value);
  }

  /** The object an Event is about is in its involvedObject or, if that has no members, in regarding. */
  predicate Involves(obj: Object, field: string, value: string) {
    var section := if AtPath(Obj(obj), ["involvedObject"]).Obj? && AtPath(Obj(obj), ["involvedObject"]) != Obj(map[]) then "involvedObject" else "regarding";
    AtPath(Obj(obj), [section, field]) == Str(value)
  }

  lemma InvolvesReads(obj: Object, field: string, value: string)
    ensures TextOf(Involved(obj), field) == (value, true) <==> Involves(obj, field, value)
  {
    OneStep(obj, "involvedObject");
    OnPath(obj, "involvedObject", field, value);
    OnPath(obj, "regarding", field, value);
    hide AtPath;
  }

  /** Where `=` reads each field; `==` does the same and `!=` the opposite, except that no operator selects by another field. */
  lemma FieldMeaning(obj: Object, key: string, value: string)
    ensures var equal := FieldMatches(obj, Requirement(key, "=", value));
      && (key == "metadata.name" ==> (equal <==> AtPath(Obj(obj), ["metadata", "name"]) == Str(value)))
      && (key == "metadata.namespace" ==> (equal <==> AtPath(Obj(obj), ["metadata", "namespace"]) == Str(value)))
      && (key == "status.phase" ==> (equal <==> AtPath(Obj(obj), ["status", "phase"]) == Str(value)))
      && (key == "spec.nodeName" ==> (equal <==> AtPath(Obj(obj), ["spec", "nodeName"]) == Str(value)))
      && (key == "involvedObject.name" || key == "regarding.name" ==> (equal <==> Involves(obj, "name", value)))
      && (key == "involvedObject.namespace" || key == "regarding.namespace" ==> (equal <==> Involves(obj, "namespace", value)))
      && (key == "involvedObject.kind" || key == "regarding.kind" ==> (equal <==> Involves(obj, "kind", value)))
      && (key == "reason" || key == "type" || key == "source.component" || key == "reportingComponent" ==>
            (equal <==> AtPath(Obj(obj), if Member(obj, key).Str? then [key] else ["source", "component"]) == Str(value)))
    ensures FieldMatches(obj, Requirement(key, "==", value)) == FieldMatches(obj, Requirement(key, "=", value))
    ensures FieldMatches(obj, Requirement(key, "!=", value)) <==> SourceOf(key) != Unsupported && !FieldMatches(obj, Requirement(key, "=", value))
  {
    hide AtPath, Involves, Involved, FieldMatches;
    EqualReads(obj, key, value);
    if SourceOf(key).Section? {
      OnPath(obj, SourceOf(key).section, SourceOf(key).key, value);
    } else if SourceOf(key).OfInvolved? {
      InvolvesReads(obj, SourceOf(key).key, value);
    } else if SourceOf(key).OfSource? {
      OneStep(obj, key);
      OnPath(obj, "source", "component", value);
    }
  }

  lemma EqualReads(obj: Object, key: string, value: string)
    ensures FieldMatches(obj, Requirement(key, "=", value)) <==>
      SourceOf(key) != Unsupported && FieldValue(obj, key, SourceOf(key)) == (value, true)
    ensures FieldMatches(obj, Requirement(key, "==", value)) == FieldMatches(obj, Requirement(key, "=", value))
    ensures FieldMatches(obj, Requirement(key, "!=", value)) <==> SourceOf(key) != Unsupported && !FieldMatches(obj, Requirement(key, "=", value))
  {
    hide SourceOf;
  }

  /** Exactly these fields can be asked for. */
  lemma SupportedFields(key: string)
    ensures SourceOf(key) != Unsupported <==>
      || key == "metadata.name" || key == "metadata.namespace" || key == "status.phase" || key == "spec.nodeName"
      || key == "involvedObject.name" || key == "involvedObject.namespace" || key == "involvedObject.kind"
      || key == "regarding.name" || key == "regarding.namespace" || key == "regarding.kind"
      || key == "reason" || key == "type" || key == "source.component" || key == "reportingComponent"
  {
  }

  // ----- a selector that was written out is read back -----

  /** Keys and values as selectors can express them: no separators, and no white space around. */
  predicate Expressible(text: string) {
    text != "" && Solid(text[0]) && Solid(text[|text| - 1]) && ',' !in text && '=' !in text && '!' !in text
  }

  predicate Writable(r: Requirement) {
    Expressible(r.key) && Expressible(r.value) && (r.operator == "=" || r.operator == "==" || r.operator == "!=")
  }

  function Written(r: Requirement): string {
    r.key + r.operator + r.value
  }

  function WrittenAll(rs: seq<Requirement>): (texts: seq<string>)
    ensures |texts| == |rs| && forall i :: 0 <= i < |rs| ==> texts[i] == Written(rs[i])
  {
    seq(|rs|, i requires 0 <= i < |rs| => Written(rs[i]))
  }

  function SelectorText(rs: seq<Requirement>): string {
    Join(WrittenAll(rs), ',')
  }

  lemma ThreeParts(key: string, operator: string, value: string)
    ensures var text := key + operator + value;
      && text[..|key|] == key && text[|key|..] == operator + value && text[|key|..][|operator|..] == value
  {
  }

  lemma FirstFound(key: string, operator: string, value: string)
    requires operator != "" && operator[0] !in key
    ensures Search(key + operator + value, operator) == |key|
  {
    hide Search;
    var text := key + operator + value;
    ThreeParts(key, operator, value);
    forall j | 0 <= j < |key| ensures !(operator <= text[j..]) {
      assert text[j..][0] == key[j];
    }
    SearchFrom(text, operator, |key|);
  }

  /** A pattern whose first character does not occur is not found. */
  lemma NotFound(text: string, pattern: string)
    requires pattern != "" && pattern[0] !in text
    ensures Search(text, pattern) == |text|
  {
    hide Search;
    forall j | 0 <= j < |text| ensures !(pattern <= text[j..]) {
      assert text[j..][0] == text[j];
    }
    SearchFrom(text, pattern, |text|);
  }

  lemma SingleEquals(key: string, value: string)
    requires '=' !in key && '=' !in value
    ensures Search(key + "=" + value, "==") == |key + "=" + value|
  {
    hide Search;
    var text := key + "=" + value;
    forall j | 0 <= j < |text| ensures !("==" <= text[j..]) {
      assert "=="[0] == '=' && "=="[1] == '=';
      assert j < |key| ==> text[j] == key[j];
      assert j + 1 < |text| && j >= |key| ==> text[j + 1] == value[j - |key|];
      assert forall k :: 0 <= k < |text| - j ==> text[j..][k] == text[j + k];
    }
    SearchFrom(text, "==", |text|);
  }

  lemma OperatorRead(r: Requirement)
    requires Writable(r)
    ensures OperatorIn(Written(r)) == r.operator
  {
    hide Search, Solid;
    FirstFound(r.key, r.operator, r.value);
    if r.operator != "!=" {
      NotFound(Written(r), "!=");
    }
    if r.operator == "=" {
      SingleEquals(r.key, r.value);
      assert Written(r)[|r.key|] == '=';
    }
  }

  lemma WrittenEnds(r: Requirement)
    requires Writable(r)
    ensures ',' !in Written(r) && TrimSpace(Written(r)) == Written(r) && TrimSpace(r.key) == r.key && TrimSpace(r.value) == r.value
  {
    hide TrimSpace, Solid;
    var text := Written(r);
    assert text[0] == r.key[0] && text[|text| - 1] == r.value[|r.value| - 1];
    TrimKeeps(text);
    TrimKeeps(r.key);
    TrimKeeps(r.value);
  }

  lemma RequirementRead(r: Requirement)
    requires Writable(r)
    ensures ParseRequirement(Written(r)) == Valid([r])
    ensures ',' !in Written(r)
  {
    hide OperatorIn, Search, TrimSpace, Solid;
    OperatorRead(r);
    WrittenEnds(r);
    FirstFound(r.key, r.operator, r.value);
    ThreeParts(r.key, r.operator, r.value);
  }

  lemma {:induction false} RequirementsRead(rs: seq<Requirement>)
    requires forall i :: 0 <= i < |rs| ==> Writable(rs[i])
    ensures ParseRequirements(WrittenAll(rs)) == Valid(rs)
  {
    hide ParseRequirement, Written, Writable;
    if rs != [] {
      RequirementRead(rs[0]);
      RequirementsRead(rs[1..]);
      assert WrittenAll(rs)[1..] == WrittenAll(rs[1..]);
      assert [rs[0]] + rs[1..] == rs;
    }
  }

  /** Whatever requirements are written out between commas are read back, in their order. */
  lemma SelectorRoundTrip(rs: seq<Requirement>)
    requires forall i :: 0 <= i < |rs| ==> Writable(rs[i])
    ensures ParseSelector(SelectorText(rs)) == Valid(rs)
  {
    if rs != [] {
      hide ParseRequirements, Written, TrimSpace;
      var texts := WrittenAll(rs);
      forall i | 0 <= i < |texts| ensures ',' !in texts[i] {
        RequirementRead(rs[i]);
      }
      SplitJoin(texts, ',');
      RequirementsRead(rs);
      SelectorEnds(rs);
      TrimKeeps(SelectorText(rs));
    }
  }

  lemma {:induction false} SelectorEnds(rs: seq<Requirement>)
    requires rs != [] && forall i :: 0 <= i < |rs| ==> Writable(rs[i])
    ensures var text := SelectorText(rs); text != "" && Solid(text[0]) && Solid(text[|text| - 1])
  {
    hide Solid;
    var texts := WrittenAll(rs);
    if |rs| > 1 {
      SelectorEnds(rs[1..]);
      assert texts[1..] == WrittenAll(rs[1..]);
    }
  }

  // ----- what a copy still matches -----

  /** Text that survives encoding, and no typed maps, whose members only the copy shows. */
  ghost predicate Plain(o: Object) {
    ValidText(Obj(o)) && Untyped(Obj(o))
  }

  lemma PlainParts(o: Object)
    requires Plain(o)
    ensures forall k :: k in o ==> ValidUtf8(k) && ValidText(o[k]) && Untyped(o[k])
  {
    hide ValidUtf8;
  }

  lemma PlainObject(o: Object)
    ensures ValidText(Obj(o)) && Untyped(Obj(o)) ==> Plain(o)
    ensures Plain(map[])
  {
  }

  lemma PlainValue(j: Json)
    requires ValidText(j) && Untyped(j)
    ensures !j.Texts? && (j.Str? ==> Clone(j) == j) && Plain(ObjectMap(j))
  {
    if j.Str? {
      CoerceFixes(j.text);
    }
    PlainObject(ObjectMap(j));
    hide Plain, ValidUtf8, Coerce, Origins;
  }

  lemma PlainMember(o: Object, key: string)
    requires Plain(o)
    ensures Plain(ObjectMap(Member(o, key)))
    ensures Member(Reread(o), key) == Clone(Member(o, key))
    ensures !Member(o, key).Texts? && (Member(o, key).Str? ==> Clone(Member(o, key)) == Member(o, key))
  {
    hide Plain, ValidUtf8, ValidText, Untyped, Reread, Coerce, Origins;
    PlainParts(o);
    ValidMembers(o);
    if key in o {
      PlainValue(o[key]);
    } else {
      PlainNone();
    }
  }

  lemma PlainNone()
    ensures Plain(map[]) && Plain(ObjectMap(Null))
  {
  }

  lemma CloneTextOf(o: Object, key: string)
    requires Plain(o)
    ensures TextOf(Reread(o), key) == TextOf(o, key)
  {
    hide Plain, Reread, Coerce;
    PlainMember(o, key);
  }

  lemma CloneEmpty()
    ensures Reread(map[]) == map[]
  {
  }

  lemma CloneMap(o: Object, key: string)
    requires Plain(o)
    ensures ObjectMap(Member(Reread(o), key)) == Reread(ObjectMap(Member(o, key)))
  {
    PlainMember(o, key);
    CloneEmpty();
    hide Plain, Origins, Coerce;
  }

  lemma CloneSection(obj: Object, section: string, key: string)
    requires Plain(obj)
    ensures TextOf(ObjectMap(Member(Reread(obj), section)), key) == TextOf(ObjectMap(Member(obj, section)), key)
  {
    hide Plain, Reread;
    CloneMap(obj, section);
    PlainMember(obj, section);
    CloneTextOf(ObjectMap(Member(obj, section)), key);
  }

  lemma CloneLabelText(obj: Object, key: string)
    requires Plain(obj)
    ensures LabelText(Reread(obj), key) == LabelText(obj, key)
  {
    hide Plain, Reread;
    var metadata := ObjectMap(Member(obj, "metadata"));
    CloneMap(obj, "metadata");
    PlainMember(obj, "metadata");
    CloneSection(metadata, "labels", key);
  }

  lemma CloneKeepsEmpty(o: Object)
    requires Plain(o)
    ensures Reread(o) == map[] <==> o == map[]
  {
    PlainParts(o);
    ValidMembers(o);
    hide Reread;
    assert Reread(o).Keys == o.Keys;
  }

  lemma CloneInvolved(obj: Object, key: string)
    requires Plain(obj)
    ensures TextOf(Involved(Reread(obj)), key) == TextOf(Involved(obj), key)
  {
    hide Plain, Reread;
    CloneMap(obj, "involvedObject");
    PlainMember(obj, "involvedObject");
    CloneKeepsEmpty(ObjectMap(Member(obj, "involvedObject")));
    CloneSection(obj, "involvedObject", key);
    CloneSection(obj, "regarding", key);
  }

  lemma CloneFieldValue(obj: Object, key: string, source: FieldSource)
    requires Plain(obj)
    ensures FieldValue(Reread(obj), key, source) == FieldValue(obj, key, source)
  {
    hide Plain, Reread;
    match source
    case Section(section, field) => CloneSection(obj, section, field);
    case OfInvolved(field) => CloneInvolved(obj, field);
    case OfSource =>
      CloneTextOf(obj, key);
      CloneSection(obj, "source", "component");
    case Unsupported =>
  }

  // ----- which objects the same selectors select -----

  /** Every label, and every field a selector may name, reads alike. */
  ghost predicate SameTexts(a: Object, b: Object) {
    && (forall key :: LabelText(a, key) == LabelText(b, key))
    && (forall key :: SourceOf(key) != Unsupported ==> FieldValue(a, key, SourceOf(key)) == FieldValue(b, key, SourceOf(key)))
  }

  ghost predicate SelectedAlike(a: Object, b: Object) {
    forall labels, fields :: Matches(a, labels, fields) == Matches(b, labels, fields)
  }

  lemma MatchesOne(obj: Object, r: Requirement)
    ensures Matches(obj, [r], []) == LabelMatches(obj, r)
    ensures Matches(obj, [], [r]) == FieldMatches(obj, r)
  {
    hide LabelMatches, FieldMatches;
    assert [r][0] == r;
  }

  /** Two texts that differ are told apart by asking for one of them. */
  function Asking(key: string, x: (string, bool), y: (string, bool)): Requirement {
    Requirement(key, "=", if x.1 then x.0 else y.0)
  }

  lemma LabelsTellApart(a: Object, b: Object, key: string)
    requires SelectedAlike(a, b)
    ensures LabelText(a, key) == LabelText(b, key)
  {
    var r := Asking(key, LabelText(a, key), LabelText(b, key));
    MatchesOne(a, r);
    MatchesOne(b, r);
    assert Matches(a, [r], []) == Matches(b, [r], []);
    assert LabelMatches(a, r) == LabelMatches(b, r);
    hide Matches, Member;
  }

  lemma FieldsTellApart(a: Object, b: Object, key: string)
    requires SelectedAlike(a, b) && SourceOf(key) != Unsupported
    ensures FieldValue(a, key, SourceOf(key)) == FieldValue(b, key, SourceOf(key))
  {
    hide SourceOf;
    var r := Asking(key, FieldValue(a, key, SourceOf(key)), FieldValue(b, key, SourceOf(key)));
    MatchesOne(a, r);
    MatchesOne(b, r);
    assert Matches(a, [], [r]) == Matches(b, [], [r]);
    assert FieldMatches(a, r) == FieldMatches(b, r);
    AbsentIsEmpty(a, key, SourceOf(key));
    AbsentIsEmpty(b, key, SourceOf(key));
    hide Matches, FieldValue;
  }

  lemma AbsentIsEmpty(obj: Object, key: string, source: FieldSource)
    ensures !FieldValue(obj, key, source).1 ==> FieldValue(obj, key, source).0 == ""
  {
  }

  /** Two objects are selected by the same selectors exactly when every selectable text reads alike. */
  lemma SelectedAlikeExactly(a: Object, b: Object)
    ensures SelectedAlike(a, b) <==> SameTexts(a, b)
  {
    hide LabelText, FieldValue, SourceOf;
    if SelectedAlike(a, b) {
      hide SelectedAlike;
      forall key ensures LabelText(a, key) == LabelText(b, key) {
        LabelsTellApart(a, b, key);
      }
      forall key | SourceOf(key) != Unsupported ensures FieldValue(a, key, SourceOf(key)) == FieldValue(b, key, SourceOf(key)) {
        FieldsTellApart(a, b, key);
      }
    }
    if SameTexts(a, b) {
      forall labels, fields ensures Matches(a, labels, fields) == Matches(b, labels, fields) {
        AlikeMatches(a, b, labels, fields);
      }
    }
  }

  lemma AlikeMatches(a: Object, b: Object, labels: seq<Requirement>, fields: seq<Requirement>)
    requires SameTexts(a, b)
    ensures Matches(a, labels, fields) == Matches(b, labels, fields)
  {
    hide FieldValue, SourceOf;
    forall i | 0 <= i < |labels| ensures LabelMatches(a, labels[i]) == LabelMatches(b, labels[i]) {
      assert LabelText(a, labels[i].key) == LabelText(b, labels[i].key);
    }
    assert forall i :: 0 <= i < |fields| ==> FieldMatches(a, fields[i]) == FieldMatches(b, fields[i]);
  }

  /**
   * A copy is selected by the same selectors exactly when its selectable texts read like the
   * original's, as they do for an object of valid text without typed maps that can be read back.
   */
  lemma CloneMatches(obj: Object)
    ensures SelectedAlike(CloneObject(obj), obj) <==> SameTexts(CloneObject(obj), obj)
    ensures Plain(obj) && Readable(obj) ==> SelectedAlike(CloneObject(obj), obj)
  {
    hide Plain, Reread, LabelText, FieldValue, SourceOf, SelectedAlike;
    SelectedAlikeExactly(CloneObject(obj), obj);
    if Plain(obj) && Readable(obj) {
      forall key ensures LabelText(Reread(obj), key) == LabelText(obj, key) {
        CloneLabelText(obj, key);
      }
      forall key ensures FieldValue(Reread(obj), key, SourceOf(key)) == FieldValue(obj, key, SourceOf(key)) {
        CloneFieldValue(obj, key, SourceOf(key));
      }
    }
  }

  // ----- the fields the API itself writes, in any copy -----

  lemma CloneTextAt(o: Object, key: string)
    requires Ascii(key)
    ensures TextOf(Reread(o), key) == (Coerce(TextOf(o, key).0), TextOf(o, key).1)
  {
    CloneMember(o, key);
    hide Reread, Ascii;
  }

  lemma CloneMapAt(o: Object, key: string)
    requires Ascii(key) && !Member(o, key).Texts?
    ensures ObjectMap(Member(Reread(o), key)) == Reread(ObjectMap(Member(o, key)))
  {
    CloneMember(o, key);
    CloneEmpty();
    hide Origins, Coerce, Ascii;
  }

  lemma CopiedLabel(obj: Object, key: string)
    requires Readable(obj) && Ascii(key)
    requires !Member(obj, "metadata").Texts? && !Member(ObjectMap(Member(obj, "metadata")), "labels").Texts?
    ensures LabelText(CloneObject(obj), key) == (Coerce(LabelText(obj, key).0), LabelText(obj, key).1)
  {
    hide Reread, Readable, Coerce;
    var metadata := ObjectMap(Member(obj, "metadata"));
    CloneMapAt(obj, "metadata");
    CloneMapAt(metadata, "labels");
    CloneTextAt(ObjectMap(Member(metadata, "labels")), key);
  }

  /** An object labelled with a byte that is no text, and the selector that asks for it. */
  const BINARY_LABEL: Object := map["metadata" := Obj(map["labels" := Obj(map["x" := Str("\U{FF}")])])]
  const BINARY_SELECTOR := [Requirement("x", "=", "\U{FF}")]

  lemma BinaryLabelReadable()
    ensures Readable(BINARY_LABEL)
  {
    hide Reread;
    assert NestsWithin(Str("\U{FF}"), MAX_NESTING - 3);
    assert NestsWithin(Obj(map["x" := Str("\U{FF}")]), MAX_NESTING - 2);
  }

  lemma CopyCanStopMatching()
    ensures Matches(BINARY_LABEL, BINARY_SELECTOR, []) && !Matches(CloneObject(BINARY_LABEL), BINARY_SELECTOR, [])
  {
    hide Reread, Readable;
    BinaryLabelReadable();
    var metadata := ObjectMap(Member(BINARY_LABEL, "metadata"));
    CloneMapAt(BINARY_LABEL, "metadata");
    CloneMapAt(metadata, "labels");
    CloneTextAt(ObjectMap(Member(metadata, "labels")), "x");
    assert Coerce("\U{FF}") == REPLACEMENT;
    assert LabelMatches(BINARY_LABEL, BINARY_SELECTOR[0]);
    assert !LabelMatches(Reread(BINARY_LABEL), BINARY_SELECTOR[0]);
  }
}
