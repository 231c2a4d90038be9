/** Why every honeytoken of a valid configuration is in the store once seeding is over. */
module SeedGuarantee {
  import opened Sums
  import opened Text
  import opened Utf8
  import opened Json
  import opened Names
  import opened StoreModel
  import opened ConfigRules
  import opened Seeding
  import StoreRuns
  import Watching
  import Base64

  /** No Secret or Namespace of a valid configuration is charged more than this. */
  const SMALL := 180224

  // ----- how long a seeded object is -----

  lemma MetadataLength(w: World, item: Item)
    requires Plausible(w)
    requires |item.key.name| <= 253 && |item.key.namespace| <= 63
    ensures EncodedLength(Obj(SeedMetadata(w, item))) <= EncodedLength(Obj(Metadata(item.obj))) + 3000
  {
    hide EncodedLength;
    var named := Metadata(item.obj)["name" := Str(item.key.name)];
    TextUpdate(Metadata(item.obj), "name", item.key.name);
    TextUpdate(named, "namespace", item.key.namespace);
    var placed := if item.key.namespace != "" then named["namespace" := Str(item.key.namespace)] else named;
    TextUpdate(placed, "uid", w.uid(item.key));
    TextUpdate(placed["uid" := Str(w.uid(item.key))], "creationTimestamp", w.startedAt);
  }

  lemma TextUpdate(o: Object, k: string, text: string)
    ensures EncodedLength(Obj(o[k := Str(text)])) <= EncodedLength(Obj(o)) + 6 * |k| + 6 + 6 * |text|
  {
    UpdateLength(o, k, Str(text));
    StringLengthBound(text);
  }

  lemma StampedLength(w: World, item: Item, revision: nat)
    requires Plausible(w) && revision < 10000
    requires |item.key.name| <= 253 && |item.key.namespace| <= 63 && ApiVersion(item.key) == "v1"
    ensures ObjectLength(Stamp(Prepared(w, item), revision))
         <= EncodedLength(Obj(item.obj)) + 2 * EncodedLength(Obj(Metadata(item.obj))) + 9000
  {
    hide EncodedLength, SeedMetadata;
    var versioned := item.obj["apiVersion" := Str(ApiVersion(item.key))];
    TextUpdate(item.obj, "apiVersion", ApiVersion(item.key));
    var kind := w.kindOf(item.key);
    TextUpdate(versioned, "kind", kind.0);
    var described := if kind.1 then versioned["kind" := Str(kind.0)] else versioned;
    MetadataLength(w, item);
    var metadata := SeedMetadata(w, item);
    UpdateLength(described, "metadata", Obj(metadata));
    assert Prepared(w, item) == described["metadata" := Obj(metadata)];
    DecimalLength(revision, 4);
    TextUpdate(metadata, "resourceVersion", Decimal(revision));
    UpdateLength(Prepared(w, item), "metadata", Obj(metadata["resourceVersion" := Str(Decimal(revision))]));
  }

  // ----- trimming changes nothing that validation accepted -----

  lemma LabelEnds(part: string)
    requires DnsLabel(part)
    ensures Solid(part[0]) && Solid(part[|part| - 1])
  {
  }

  lemma LabelNotEmpty(name: string, part: string)
    requires DnsSubdomain(name) && DnsLabel(part)
    ensures name != "" && part != ""
  {
  }

  lemma SubdomainStart(name: string)
    requires DnsSubdomain(name)
    ensures Solid(name[0])
  {
    var first := Split(name, '.')[0];
    assert DnsLabel(first) && first == name[..Find(name, '.')];
  }

  lemma OnePart(s: string, sep: char)
    requires |Split(s, sep)| == 1
    ensures Split(s, sep) == [s]
  {
  }

  lemma TwoParts(s: string, sep: char)
    requires |Split(s, sep)| == 2
    ensures Find(s, sep) < |s| && Split(s, sep) == [s[..Find(s, sep)], s[Find(s, sep) + 1..]]
  {
    var rest := s[Find(s, sep) + 1..];
    assert Split(s, sep) == [s[..Find(s, sep)]] + Split(rest, sep);
    assert Split(rest, sep) == Split(s, sep)[1..];
    OnePart(rest, sep);
  }

  lemma TypeKept(kind: string)
    requires ValidType(kind)
    ensures TrimSpace(kind) == kind
  {
    if kind == "Opaque" {
      TrimKeeps(kind);
    } else {
      hide DnsLabel, DnsSubdomain, Solid;
      TwoParts(kind, '/');
      SubdomainStart(Split(kind, '/')[0]);
      LabelEnds(Split(kind, '/')[1]);
      LabelNotEmpty(Split(kind, '/')[0], Split(kind, '/')[1]);
      TrimKeeps(kind);
    }
  }

  lemma NamespaceKept(h: Honeytoken)
    requires DnsLabel(NamespaceOf(h))
    ensures SeedNamespace(h) == NamespaceOf(h)
  {
    hide DnsLabel;
    if h.namespace != "" {
      LabelEnds(h.namespace);
    }
    TrimKeeps(h.namespace);
  }

  lemma SecretKept(h: Honeytoken, namespaces: seq<string>)
    requires ValidHoneytoken(h, namespaces)
    ensures SeedNamespace(h) == NamespaceOf(h) && SecretType(h) == h.kind
  {
    hide DnsLabel, DnsSubdomain;
    NamespaceKept(h);
    TypeKept(h.kind);
  }

  // ----- a valid Secret is encodable and short -----

  lemma EntryLengthBound(data: map<string, string>)
    requires ValidData(data)
    ensures Encodable(data)
  {
    var w := EntryLengths(data);
    forall k | k in w ensures w[k] <= 253 + 5464 {
      assert DataKey(k) && |data[k]| <= 4096;
    }
    assert w.Keys == data.Keys && |w| == |w.Keys| == |data.Keys| == |data|;
    TotalBound(w, 5717);
  }

  lemma EntryLength(data: map<string, string>, k: string)
    requires ValidData(data) && k in data
    ensures |k| <= 253 && EncodedLength(Str(Base64.Encode(data[k]))) <= 5466
  {
    hide EncodedLength;
    assert DataKey(k) && |data[k]| <= 4096;
    Base64.EncodeLength(data[k]);
    StringValue(Base64.Encode(data[k]));
  }

  lemma DataLength(data: map<string, string>)
    requires ValidData(data)
    ensures EncodedLength(Texts(EncodedData(data))) <= 2 + 16 * 6988
  {
    hide EncodedLength, Base64.Encode;
    var o := AsObject(EncodedData(data));
    TextsLength(EncodedData(data));
    forall k | k in o ensures |k| <= 253 && EncodedLength(o[k]) <= 5466 {
      EntryLength(data, k);
    }
    assert o.Keys == data.Keys && |o| == |o.Keys| == |data.Keys| == |data|;
    ObjectLengthBound(o, 16, 253, 5466);
  }

  lemma StringValue(s: string)
    ensures EncodedLength(Str(s)) == StringLength(s) <= 2 + 6 * |s|
  {
    StringLengthBound(s);
  }

  lemma EmptyLength()
    ensures EncodedLength(Obj(map[])) == 2
  {
  }

  ghost predicate Small(w: World, item: Item) {
    forall revision: nat :: revision < 10000 ==> ObjectLength(Stamp(Prepared(w, item), revision)) <= SMALL
  }

  lemma SecretSmall(w: World, h: Honeytoken, namespaces: seq<string>)
    requires Plausible(w) && ValidHoneytoken(h, namespaces)
    ensures Small(w, SecretItem(h))
  {
    hide EncodedLength, DnsLabel, DnsSubdomain, ValidType, ValidData, Prepared, Stamp;
    SecretKept(h, namespaces);
    LabelLengths(h);
    var data := Texts(EncodedData(h.data));
    DataLength(h.data);
    TextUpdate(map[], "type", h.kind);
    EmptyLength();
    UpdateLength(map["type" := Str(h.kind)], "data", data);
    TypeLength(h.kind);
    forall revision: nat | revision < 10000 ensures ObjectLength(Stamp(Prepared(w, SecretItem(h)), revision)) <= SMALL {
      StampedLength(w, SecretItem(h), revision);
    }
  }

  lemma LabelLengths(h: Honeytoken)
    requires DnsSubdomain(h.name) && DnsLabel(NamespaceOf(h))
    ensures |h.name| <= 253 && |NamespaceOf(h)| <= 63
  {
  }

  lemma TypeLength(kind: string)
    requires ValidType(kind)
    ensures |kind| <= 256
  {
  }

  lemma NamespaceSmall(w: World, n: string)
    requires Plausible(w) && DnsLabel(n)
    ensures Small(w, NamespaceItem(n))
  {
    hide EncodedLength, Prepared, Stamp, StringLength;
    var inner := Texts(map["kubernetes.io/metadata.name" := n]);
    TextsLength(map["kubernetes.io/metadata.name" := n]);
    assert AsObject(map["kubernetes.io/metadata.name" := n]) == map["kubernetes.io/metadata.name" := Str(n)];
    StringValue(n);
    SingletonLength("kubernetes.io/metadata.name", Str(n));
    StringLengthBound("kubernetes.io/metadata.name");
    var metadata: Object := map["labels" := inner];
    SingletonLength("labels", inner);
    StringLengthBound("labels");
    StringValue("Active");
    SingletonLength("phase", Str("Active"));
    StringLengthBound("phase");
    PairLength("metadata", Obj(metadata), "status", Obj(map["phase" := Str("Active")]));
    StringLengthBound("metadata");
    StringLengthBound("status");
    forall revision: nat | revision < 10000 ensures ObjectLength(Stamp(Prepared(w, NamespaceItem(n)), revision)) <= SMALL {
      StampedLength(w, NamespaceItem(n), revision);
    }
  }

  // ----- what one seeded object does to the store -----

  /** A version number for each seeded object, at most one entry each, and a bound on the bytes. */
  ghost predicate Tally(s: Seeded, bytes: int) {
    s.store.revision == 1000 + s.count && |s.store.objects| <= s.count && s.store.bytes <= bytes
  }

  ghost predicate Keeps(s: Seeded, t: Seeded) {
    forall k :: k in s.store.objects ==> k in t.store.objects && t.store.objects[k] == s.store.objects[k]
  }

  /** Whether every key stored in `t` was in `s` already or belongs to one of the items. */
  ghost predicate OnlyAdds(s: Seeded, t: Seeded, items: seq<Item>) {
    forall k :: k in t.store.objects ==> k in s.store.objects || exists i :: 0 <= i < |items| && items[i].key == k
  }

  ghost function StoredForm(w: World, item: Item, revision: nat): Object {
    CloneObject(Stamp(Prepared(w, item), revision))
  }

  lemma ItemEffect(w: World, s: Seeded, item: Item)
    requires Admitted(w, s, item)
    ensures var t, charged := SeedOne(w, s, item), ObjectLength(Stamp(Prepared(w, item), s.store.revision + 1));
      && item.key !in s.store.objects && charged <= MAX_STORED_OBJECT_BYTES
      && t.count == s.count + 1 && t.store.revision == s.store.revision + 1
      && t.store.bytes == s.store.bytes + charged
      && t.store.objects == s.store.objects[item.key := StoredForm(w, item, s.store.revision + 1)]
  {
    hide Prepared, Stamp, CloneObject, Put, EncodedLength;
    PutEffect(s.store, item.key, Prepared(w, item), Added);
  }

  lemma ItemTally(w: World, s: Seeded, item: Item, bytes: int, charge: int)
    requires Tally(s, bytes) && charge >= 0
    requires Admitted(w, s, item) ==> ObjectLength(Stamp(Prepared(w, item), s.store.revision + 1)) <= charge
    ensures Tally(SeedOne(w, s, item), bytes + charge)
    ensures SeedOne(w, s, item).count <= s.count + 1
    ensures Keeps(s, SeedOne(w, s, item))
    ensures OnlyAdds(s, SeedOne(w, s, item), [item])
  {
    hide Prepared, Stamp, ObjectLength, StoredForm, PutVerdict, Put, Admitted, SeedOne;
    if Admitted(w, s, item) {
      ItemEffect(w, s, item);
      assert [item][0].key == item.key;
    } else {
      NotAdmitted(w, s, item);
    }
  }

  lemma NotAdmitted(w: World, s: Seeded, item: Item)
    requires !Admitted(w, s, item)
    ensures SeedOne(w, s, item) == s
  {
  }

  lemma AdmittedLimit(w: World, s: Seeded, item: Item)
    requires Admitted(w, s, item)
    ensures ObjectLength(Stamp(Prepared(w, item), s.store.revision + 1)) <= MAX_STORED_OBJECT_BYTES
  {
    hide Prepared, Stamp, ObjectLength;
  }

  /** Whatever is seeded: earlier objects stay, and each item costs at most the largest object. */
  lemma {:induction false} SeedAllTally(w: World, s: Seeded, items: seq<Item>, bytes: int)
    requires Tally(s, bytes)
    ensures Tally(SeedAll(w, s, items), bytes + |items| * MAX_STORED_OBJECT_BYTES)
    ensures SeedAll(w, s, items).count <= s.count + |items|
    ensures Keeps(s, SeedAll(w, s, items))
    ensures OnlyAdds(s, SeedAll(w, s, items), items)
  {
    hide Prepared, Stamp, ObjectLength, Tally, Admitted, SeedOne;
    if items != [] {
      var init, last := items[..|items| - 1], items[|items| - 1];
      SeedAllTally(w, s, init, bytes);
      var t := SeedAll(w, s, init);
      if Admitted(w, t, last) {
        AdmittedLimit(w, t, last);
      }
      ItemTally(w, t, last, bytes + |init| * MAX_STORED_OBJECT_BYTES, MAX_STORED_OBJECT_BYTES);
      OnlyAddsSnoc(s, t, SeedOne(w, t, last), items);
    }
  }

  lemma OnlyAddsSnoc(s: Seeded, t: Seeded, u: Seeded, items: seq<Item>)
    requires items != [] && OnlyAdds(s, t, items[..|items| - 1]) && OnlyAdds(t, u, [items[|items| - 1]])
    ensures OnlyAdds(s, u, items)
  {
    var init := items[..|items| - 1];
    forall k | k in u.store.objects && k !in s.store.objects ensures exists i :: 0 <= i < |items| && items[i].key == k {
      if k in t.store.objects {
        var i :| 0 <= i < |init| && init[i].key == k;
        assert items[i].key == k;
      }
    }
  }

  lemma SmallAdmitted(w: World, s: Seeded, item: Item)
    requires s.count < MAX_SEED_OBJECTS && Tally(s, MAX_STORED_BYTES - SMALL) && Small(w, item) && item.key !in s.store.objects
    ensures Admitted(w, s, item)
    ensures ObjectLength(Stamp(Prepared(w, item), s.store.revision + 1)) <= SMALL
  {
    hide Prepared, Stamp, ObjectLength;
  }

  ghost predicate AllSmall(w: World, items: seq<Item>) {
    forall i :: 0 <= i < |items| ==> Small(w, items[i])
  }

  ghost predicate DistinctKeys(items: seq<Item>) {
    forall i, j :: 0 <= i < j < |items| ==> items[i].key != items[j].key
  }

  ghost predicate NoneStored(s: Seeded, items: seq<Item>) {
    forall i :: 0 <= i < |items| ==> items[i].key !in s.store.objects
  }

  ghost predicate AllStored(w: World, t: Seeded, items: seq<Item>, revision: nat) {
    forall i :: 0 <= i < |items| ==>
      items[i].key in t.store.objects && t.store.objects[items[i].key] == StoredForm(w, items[i], revision + i + 1)
  }

  lemma StoredSnoc(w: World, t: Seeded, u: Seeded, items: seq<Item>, revision: nat)
    requires items != [] && AllStored(w, t, items[..|items| - 1], revision) && Keeps(t, u)
    requires var last := items[|items| - 1];
      last.key in u.store.objects && u.store.objects[last.key] == StoredForm(w, last, revision + |items|)
    ensures AllStored(w, u, items, revision)
  {
    hide StoredForm;
    var init := items[..|items| - 1];
    forall i | 0 <= i < |items|
      ensures items[i].key in u.store.objects && u.store.objects[items[i].key] == StoredForm(w, items[i], revision + i + 1)
    {
      if i < |init| {
        assert items[i] == init[i];
      }
    }
  }

  lemma InitOf(w: World, s: Seeded, items: seq<Item>)
    requires items != [] && AllSmall(w, items) && DistinctKeys(items) && NoneStored(s, items)
    ensures var init := items[..|items| - 1];
      AllSmall(w, init) && DistinctKeys(init) && NoneStored(s, init) && Small(w, items[|items| - 1])
  {
    hide Small;
  }

  /** Small items under new, distinct keys are all stored while the budgets last. */
  lemma {:induction false} SmallItemsStored(w: World, s: Seeded, items: seq<Item>, bytes: int)
    requires Tally(s, bytes) && bytes + |items| * SMALL <= MAX_STORED_BYTES && s.count + |items| <= MAX_SEED_OBJECTS
    requires AllSmall(w, items) && DistinctKeys(items) && NoneStored(s, items)
    ensures Tally(SeedAll(w, s, items), bytes + |items| * SMALL)
    ensures SeedAll(w, s, items).count == s.count + |items|
    ensures AllStored(w, SeedAll(w, s, items), items, s.store.revision)
  {
    hide Prepared, Stamp, ObjectLength, Small, Admitted, SeedOne, StoredForm;
    hide AllSmall, DistinctKeys, NoneStored, OnlyAdds, Keeps, AllStored;
    if items == [] {
      NothingStored(w, s, items);
    } else {
      var init, last := items[..|items| - 1], items[|items| - 1];
      InitOf(w, s, items);
      SmallItemsStored(w, s, init, bytes);
      SeedAllTally(w, s, init, bytes);
      var t := SeedAll(w, s, init);
      LastIsNew(s, t, items);
      SmallAdmitted(w, t, last);
      ItemEffect(w, t, last);
      ItemTally(w, t, last, bytes + |init| * SMALL, SMALL);
      StoredSnoc(w, t, SeedOne(w, t, last), items, s.store.revision);
    }
  }

  lemma NothingStored(w: World, s: Seeded, items: seq<Item>)
    requires items == []
    ensures AllStored(w, s, items, s.store.revision)
  {
  }

  lemma LastIsNew(s: Seeded, t: Seeded, items: seq<Item>)
    requires items != [] && DistinctKeys(items) && NoneStored(s, items) && OnlyAdds(s, t, items[..|items| - 1])
    ensures items[|items| - 1].key !in t.store.objects
  {
  }

  // ----- which namespaces are seeded -----

  ghost predicate NoRepeats(s: seq<string>) {
    forall i, j :: 0 <= i < j < |s| ==> s[i] != s[j]
  }

  lemma {:induction false} AddAllSound(names: seq<string>)
    ensures NoRepeats(AddAll(names)) && |AddAll(names)| <= MAX_SEED_NAMESPACES
    ensures forall n :: n in AddAll(names) ==> n in names && DnsLabel(n)
    ensures |AddAll(names)| < MAX_SEED_NAMESPACES ==> forall n :: n in names && DnsLabel(n) ==> n in AddAll(names)
  {
    hide DnsLabel;
    if names != [] {
      AddAllSound(names[..|names| - 1]);
      assert names == names[..|names| - 1] + [names[|names| - 1]];
    }
  }

  lemma {:induction false} SizeOfSet(s: seq<string>)
    ensures |set n | n in s| <= |s|
    ensures NoRepeats(s) ==> |set n | n in s| == |s|
  {
    if s != [] {
      var init := s[..|s| - 1];
      SizeOfSet(init);
      assert (set n | n in s) == (set n | n in init) + {s[|s| - 1]};
    }
  }

  lemma NoMoreThan(s: seq<string>, t: seq<string>)
    requires NoRepeats(s) && forall n :: n in s ==> n in t
    ensures |s| <= |t|
  {
    SizeOfSet(s);
    SizeOfSet(t);
    SubsetSize(set n | n in s, set n | n in t);
  }

  lemma {:induction false} TokenNamespacesWithin(hs: seq<Honeytoken>, namespaces: seq<string>)
    requires forall i :: 0 <= i < |hs| ==> ValidHoneytoken(hs[i], namespaces)
    ensures forall n :: n in TokenNamespaces(hs) ==> n in BUILT_IN || n in namespaces
  {
    hide DnsLabel, DnsSubdomain, ValidType, ValidData;
    if hs != [] {
      TokenNamespacesWithin(hs[..|hs| - 1], namespaces);
      SecretKept(hs[|hs| - 1], namespaces);
    }
  }

  lemma TrimmedSame(names: seq<string>)
    requires forall i :: 0 <= i < |names| ==> DnsLabel(names[i])
    ensures Trimmed(names) == names
  {
    forall i | 0 <= i < |names| ensures TrimSpace(names[i]) == names[i] {
      LabelEnds(names[i]);
      TrimKeeps(names[i]);
    }
  }

  lemma BuiltInLabels()
    ensures forall n :: n in BUILT_IN ==> DnsLabel(n)
  {
    assert DnsLabel("default") && DnsLabel("kube-system");
    assert DnsLabel("kube-public") && DnsLabel("kube-node-lease");
  }

  /** The limit of 128 is never met: a valid configuration has its namespaces and the four built-in ones seeded, each once. */
  lemma NamespacesSeeded(cfg: Config)
    requires ValidNamespaces(cfg.namespaces) && ValidHoneytokens(cfg)
    ensures NoRepeats(NamespaceOrder(cfg)) && |NamespaceOrder(cfg)| <= 4 + MAX_NAMESPACES
    ensures forall n :: n in NamespaceOrder(cfg) <==> n in BUILT_IN || n in cfg.namespaces
    ensures forall n :: n in NamespaceOrder(cfg) ==> DnsLabel(n)
  {
    hide DnsLabel, AddAll, TokenNamespaces, Trimmed, ValidHoneytoken;
    var allowed := BUILT_IN + cfg.namespaces;
    TokenNamespacesWithin(cfg.honeytokens, cfg.namespaces);
    TrimmedSame(cfg.namespaces);
    BuiltInLabels();
    assert Offered(cfg) == BUILT_IN + TokenNamespaces(cfg.honeytokens) + cfg.namespaces;
    AddAllSound(Offered(cfg));
    NoMoreThan(NamespaceOrder(cfg), allowed);
  }

  // ----- seeded objects can be decoded again -----

  lemma NestsPut(o: Object, k: string, x: Json, depth: nat)
    requires NestsWithin(Obj(o), depth) && depth > 0 && NestsWithin(x, depth - 1)
    ensures NestsWithin(Obj(o[k := x]), depth)
  {
    hide NestsWithin;
    StoreRuns.MembersNest(o, depth);
    StoreRuns.MembersNest(o[k := x], depth);
  }

  lemma TextPut(o: Object, k: string, text: string, depth: nat)
    requires NestsWithin(Obj(o), depth) && depth > 0
    ensures NestsWithin(Obj(o[k := Str(text)]), depth)
  {
    StoreRuns.TextNests(text, depth - 1);
    NestsPut(o, k, Str(text), depth);
    hide NestsWithin;
  }

  lemma MetadataNests(o: Object, depth: nat)
    requires NestsWithin(Obj(o), depth) && depth >= 2
    ensures NestsWithin(Obj(Metadata(o)), depth - 1)
  {
    hide NestsWithin;
    StoreRuns.MembersNest(o, depth);
    StoreRuns.MembersNest(map[], depth - 1);
  }

  lemma SeedMetadataNests(w: World, item: Item)
    requires Readable(item.obj)
    ensures NestsWithin(Obj(SeedMetadata(w, item)), MAX_NESTING - 1)
  {
    hide NestsWithin;
    var depth := MAX_NESTING - 1;
    MetadataNests(item.obj, MAX_NESTING);
    var named := Metadata(item.obj)["name" := Str(item.key.name)];
    TextPut(Metadata(item.obj), "name", item.key.name, depth);
    var placed := if item.key.namespace != "" then named["namespace" := Str(item.key.namespace)] else named;
    TextPut(named, "namespace", item.key.namespace, depth);
    var identified := placed["uid" := Str(w.uid(item.key))];
    TextPut(placed, "uid", w.uid(item.key), depth);
    TextPut(identified, "creationTimestamp", w.startedAt, depth);
  }

  lemma PreparedReads(w: World, item: Item)
    requires Readable(item.obj)
    ensures StoreRuns.ReadsBack(Prepared(w, item))
  {
    hide NestsWithin, SeedMetadata, ApiVersion;
    var versioned := item.obj["apiVersion" := Str(ApiVersion(item.key))];
    var (kind, known) := w.kindOf(item.key);
    var described := if known then versioned["kind" := Str(kind)] else versioned;
    TextPut(item.obj, "apiVersion", ApiVersion(item.key), MAX_NESTING);
    TextPut(versioned, "kind", kind, MAX_NESTING);
    SeedMetadataNests(w, item);
    NestsPut(described, "metadata", Obj(SeedMetadata(w, item)), MAX_NESTING);
    StampNests(Prepared(w, item));
  }

  lemma StampNests(obj: Object)
    requires Readable(obj)
    ensures StoreRuns.ReadsBack(obj)
  {
    hide NestsWithin, Decimal;
    MetadataNests(obj, MAX_NESTING);
    TextPut(Metadata(obj), "resourceVersion", Decimal(0), MAX_NESTING - 1);
    NestsPut(obj, "metadata", Obj(Metadata(obj)["resourceVersion" := Str(Decimal(0))]), MAX_NESTING);
  }

  lemma SecretReads(h: Honeytoken)
    ensures Readable(SecretItem(h).obj)
  {
    hide SecretType, EncodedData;
    StoreRuns.TextNests(SecretType(h), MAX_NESTING - 1);
    assert NestsWithin(Texts(EncodedData(h.data)), MAX_NESTING - 1);
    StoreRuns.MembersNest(SecretItem(h).obj, MAX_NESTING);
  }

  /**
   * What seeding writes into an object: its version, its kind if the catalog has one, its name,
   * namespace and identifier, and when it was made unless that is said already; nothing else.
   */
  lemma PreparedExactly(w: World, item: Item)
    ensures var p, given := Prepared(w, item), item.obj;
      && (forall k :: k != "apiVersion" && k != "kind" && k != "metadata" ==> (k in p <==> k in given) && Member(p, k) == Member(given, k))
      && Member(p, "apiVersion") == Str(if item.key.group == "" then item.key.version else item.key.group + "/" + item.key.version)
      && Member(p, "kind") == (if w.kindOf(item.key).1 then Str(w.kindOf(item.key).0) else Member(given, "kind"))
      && Metadata(p) == SeedMetadata(w, item)
  {
    hide SeedMetadata;
  }

  lemma SeedMetadataExactly(w: World, item: Item)
    ensures var m, given := SeedMetadata(w, item), Metadata(item.obj);
      && Member(m, "name") == Str(item.key.name) && Member(m, "uid") == Str(w.uid(item.key))
      && (item.key.namespace != "" ==> Member(m, "namespace") == Str(item.key.namespace))
      && (item.key.namespace == "" ==> Member(m, "namespace") == Member(given, "namespace"))
      && Member(m, "creationTimestamp") == (if "creationTimestamp" in given then given["creationTimestamp"] else Str(w.startedAt))
      && forall k :: k != "name" && k != "namespace" && k != "uid" && k != "creationTimestamp" ==>
           (k in m <==> k in given) && Member(m, k) == Member(given, k)
  {
    hide Metadata;
  }

  /** A seeded object names its own key, as the watch protocol expects of every put. */
  lemma SeedsNameThemselves(w: World, item: Item)
    requires ValidUtf8(item.key.name) && ValidUtf8(item.key.namespace)
    requires item.key.namespace != "" || "namespace" !in Metadata(item.obj)
    requires Readable(item.obj)
    ensures Watching.ProperOp(OpPut(item.key, Prepared(w, item), Added))
  {
    hide Coerce, ValidUtf8, StoreRuns.ReadsBack, Readable, Prepared, SeedMetadata, CloneObject, Stamp;
    PreparedReads(w, item);
    PreparedMetadata(w, item);
    SeedMetadataNames(w, item);
    Watching.StampedPlace(Prepared(w, item), 0);
    CoerceFixes(item.key.name);
    CoerceFixes(item.key.namespace);
    NothingToCoerce();
  }

  lemma NothingToCoerce()
    ensures Coerce("") == ""
  {
  }

  lemma PreparedMetadata(w: World, item: Item)
    ensures Metadata(Prepared(w, item)) == SeedMetadata(w, item)
  {
    hide SeedMetadata;
  }

  lemma SeedMetadataNames(w: World, item: Item)
    requires item.key.namespace != "" || "namespace" !in Metadata(item.obj)
    ensures TextOf(SeedMetadata(w, item), "name") == (item.key.name, true)
    ensures TextOf(SeedMetadata(w, item), "namespace") == (item.key.namespace, item.key.namespace != "")
  {
    hide Metadata;
  }

  // ----- the whole seeding -----

  function SecretList(hs: seq<Honeytoken>): seq<Item> {
    seq(|hs|, i requires 0 <= i < |hs| => SecretItem(hs[i]))
  }

  /** No honeytoken of a valid configuration is passed over. */
  lemma {:induction false} NoneSkipped(hs: seq<Honeytoken>, namespaces: seq<string>, order: seq<string>)
    requires forall i :: 0 <= i < |hs| ==> ValidHoneytoken(hs[i], namespaces) && NamespaceOf(hs[i]) in order
    ensures AllSecrets(hs, order) == SecretList(hs)
  {
    hide ValidHoneytoken, NamespaceOf, SecretItem, SecretItems;
    if hs != [] {
      var init, h := hs[..|hs| - 1], hs[|hs| - 1];
      NoneSkipped(init, namespaces, order);
      assert SecretList(hs) == SecretList(init) + [SecretItem(h)];
      NotSkipped(h, namespaces, order);
    }
  }

  lemma NotSkipped(h: Honeytoken, namespaces: seq<string>, order: seq<string>)
    requires ValidHoneytoken(h, namespaces) && NamespaceOf(h) in order
    ensures SecretItems(h, order) == [SecretItem(h)]
  {
    hide DnsLabel, DnsSubdomain, ValidType, ValidData, Encodable;
    SecretKept(h, namespaces);
    EntryLengthBound(h.data);
    TypeLength(h.kind);
  }

  lemma SecretKeysDistinct(cfg: Config)
    requires ValidHoneytokens(cfg)
    ensures DistinctKeys(SecretList(cfg.honeytokens))
  {
    hide ValidHoneytoken;
    var hs := cfg.honeytokens;
    forall i, j | 0 <= i < j < |hs| ensures SecretKey(hs[i]) != SecretKey(hs[j]) {
      SecretKept(hs[i], cfg.namespaces);
      SecretKept(hs[j], cfg.namespaces);
    }
  }

  ghost predicate NoSecrets(s: Seeded) {
    forall k :: k in s.store.objects ==> k.resource != "secrets"
  }

  lemma FixedAreNotSecrets(w: World, kubeSys: bool, rand: bool)
    ensures |FixedItems(w, kubeSys, rand)| <= 16
    ensures forall i :: 0 <= i < |FixedItems(w, kubeSys, rand)| ==> FixedItems(w, kubeSys, rand)[i].key.resource != "secrets"
  {
    var keys := FixedKeys(kubeSys, rand);
    assert forall k :: k in keys ==> k.resource != "secrets";
    assert forall i :: 0 <= i < |keys| ==> keys[i] in keys;
  }

  lemma StillNoSecrets(s: Seeded, t: Seeded, items: seq<Item>)
    requires NoSecrets(s) && OnlyAdds(s, t, items)
    requires forall i :: 0 <= i < |items| ==> items[i].key.resource != "secrets"
    ensures NoSecrets(t)
  {
  }

  ghost function AfterNamespaces(w: World, cfg: Config): Seeded {
    SeedAll(w, START, NamespaceItems(NamespaceOrder(cfg)))
  }

  ghost function AfterFixed(w: World, cfg: Config, kubeSys: bool, rand: bool): Seeded {
    SeedAll(w, AfterNamespaces(w, cfg), FixedItems(w, kubeSys, rand))
  }

  lemma NamespacesStored(w: World, cfg: Config)
    requires Plausible(w) && ValidNamespaces(cfg.namespaces) && ValidHoneytokens(cfg)
    ensures Tally(AfterNamespaces(w, cfg), 68 * SMALL) && AfterNamespaces(w, cfg).count <= 68
    ensures NoSecrets(AfterNamespaces(w, cfg))
    ensures forall n :: n in NamespaceOrder(cfg) ==> Core("namespaces", "", n) in AfterNamespaces(w, cfg).store.objects
  {
    hide DnsLabel, NamespaceOrder, ValidHoneytokens, ValidNamespaces, SeedOne, Small, StoredForm;
    NamespacesSeeded(cfg);
    var order := NamespaceOrder(cfg);
    var items := NamespaceItems(order);
    forall i | 0 <= i < |items| ensures Small(w, items[i]) {
      assert order[i] in order;
      NamespaceSmall(w, order[i]);
    }
    SmallItemsStored(w, START, items, 0);
    SeedAllTally(w, START, items, 0);
    StillNoSecrets(START, AfterNamespaces(w, cfg), items);
    forall n | n in order ensures Core("namespaces", "", n) in AfterNamespaces(w, cfg).store.objects {
      var i :| 0 <= i < |order| && order[i] == n;
      assert items[i].key == Core("namespaces", "", n);
    }
  }

  lemma FixedStored(w: World, cfg: Config, kubeSys: bool, rand: bool)
    requires Plausible(w) && ValidNamespaces(cfg.namespaces) && ValidHoneytokens(cfg)
    ensures Tally(AfterFixed(w, cfg, kubeSys, rand), MAX_STORED_BYTES - 64 * SMALL)
    ensures AfterFixed(w, cfg, kubeSys, rand).count <= 84
    ensures NoSecrets(AfterFixed(w, cfg, kubeSys, rand))
    ensures Keeps(AfterNamespaces(w, cfg), AfterFixed(w, cfg, kubeSys, rand))
  {
    hide AfterNamespaces, ValidHoneytokens, ValidNamespaces, SeedAll, FixedItems;
    NamespacesStored(w, cfg);
    FixedAreNotSecrets(w, kubeSys, rand);
    var items := FixedItems(w, kubeSys, rand);
    SeedAllTally(w, AfterNamespaces(w, cfg), items, 68 * SMALL);
    StillNoSecrets(AfterNamespaces(w, cfg), AfterFixed(w, cfg, kubeSys, rand), items);
  }

  lemma SecretsStored(w: World, cfg: Config, s: Seeded)
    requires Plausible(w) && ValidHoneytokens(cfg)
    requires Tally(s, MAX_STORED_BYTES - 64 * SMALL) && s.count <= 84 && NoSecrets(s)
    ensures AllStored(w, SeedAll(w, s, SecretList(cfg.honeytokens)), SecretList(cfg.honeytokens), s.store.revision)
  {
    hide ValidHoneytoken, Distinct, SeedAll, Small, AllStored, DistinctKeys;
    var hs := cfg.honeytokens;
    forall i | 0 <= i < |hs| ensures Small(w, SecretItem(hs[i])) {
      SecretSmall(w, hs[i], cfg.namespaces);
    }
    SecretKeysDistinct(cfg);
    SmallItemsStored(w, s, SecretList(hs), MAX_STORED_BYTES - 64 * SMALL);
  }

  /** What an API client sees of a seeded honeytoken. */
  ghost predicate Shows(obj: Object, h: Honeytoken) {
    && Member(obj, "type") == Str(h.kind)
    && Member(obj, "data") == Obj(AsObject(EncodedData(h.data)))
  }

  lemma NameAscii(name: string)
    requires forall i :: 0 <= i < |name| ==> DataKeyChar(name[i])
    ensures Ascii(name)
  {
  }

  lemma TypeAscii(kind: string)
    requires ValidType(kind)
    ensures Ascii(kind)
  {
    if kind != "Opaque" {
      hide DnsSubdomain;
      var group, suffix := Split(kind, '/')[0], Split(kind, '/')[1];
      TwoParts(kind, '/');
      SubdomainChars(group);
      assert kind == group + "/" + suffix;
      assert forall i :: 0 <= i < |suffix| ==> DataKeyChar(suffix[i]);
    }
  }

  lemma DataIsText(data: map<string, string>)
    requires ValidData(data)
    ensures Clone(Texts(EncodedData(data))) == Obj(AsObject(EncodedData(data)))
  {
    hide Base64.Encode, ValidUtf8, Coerce, Survives, Origins, Clone;
    var encoded := EncodedData(data);
    forall k | k in encoded ensures ValidUtf8(k) && ValidUtf8(encoded[k]) {
      NameAscii(k);
      AsciiValid(k);
      Base64.EncodeLength(data[k]);
      AsciiValid(encoded[k]);
    }
    ValidTexts(encoded);
  }

  lemma StampedSecret(w: World, h: Honeytoken, revision: nat)
    ensures Member(Stamp(Prepared(w, SecretItem(h)), revision), "type") == Str(SecretType(h))
    ensures Member(Stamp(Prepared(w, SecretItem(h)), revision), "data") == Texts(EncodedData(h.data))
  {
    hide SeedMetadata, SecretType;
  }

  lemma StoredShows(w: World, h: Honeytoken, namespaces: seq<string>, revision: nat)
    requires ValidHoneytoken(h, namespaces)
    ensures Shows(StoredForm(w, SecretItem(h), revision), h)
  {
    hide ValidHoneytoken, ValidType, ValidData, Prepared, SecretItem, SecretType, Stamp, CloneObject, Readable, Reread, StoreRuns.ReadsBack, Clone, EncodedData, Member;
    SecretKept(h, namespaces);
    SecretParts(h, namespaces);
    var stamped := Stamp(Prepared(w, SecretItem(h)), revision);
    StampedSecret(w, h, revision);
    SecretReads(h);
    PreparedReads(w, SecretItem(h));
    StoreRuns.StampReads(Prepared(w, SecretItem(h)), revision);
    KeptReread(stamped);
    CloneMember(stamped, "type");
    CloneMember(stamped, "data");
    TypeCopy(h.kind);
    DataIsText(h.data);
  }

  lemma KeptReread(obj: Object)
    requires Readable(obj)
    ensures CloneObject(obj) == Reread(obj)
  {
    hide NestsWithin, Reread;
  }

  lemma SecretParts(h: Honeytoken, namespaces: seq<string>)
    requires ValidHoneytoken(h, namespaces)
    ensures ValidType(h.kind) && ValidData(h.data) && Ascii("type") && Ascii("data")
  {
    hide DnsLabel, DnsSubdomain, ValidType, ValidData;
  }

  lemma TypeCopy(kind: string)
    requires ValidType(kind)
    ensures Clone(Str(kind)) == Str(kind)
  {
    hide ValidType, Coerce;
    TypeAscii(kind);
    AsciiValid(kind);
    CoerceFixes(kind);
  }

  function DecodedData(data: Object): map<string, string> {
    map k | k in data :: Base64.Decode(TextOf(data, k).0)
  }

  /** Every value is a string of bytes. */
  ghost predicate AllBytes(data: map<string, string>) {
    forall k :: k in data ==> Base64.Bytes(data[k])
  }

  /** Whoever reads the Secret and decodes its values has exactly the configured data. */
  lemma ValuesReadBack(obj: Object, h: Honeytoken)
    requires Shows(obj, h) && AllBytes(h.data)
    ensures DecodedData(ObjectMap(Member(obj, "data"))) == h.data
  {
    hide Base64.Encode, Base64.Decode, Base64.Bytes;
    var data := ObjectMap(Member(obj, "data"));
    assert data.Keys == h.data.Keys;
    forall k | k in h.data ensures Base64.Decode(TextOf(data, k).0) == h.data[k] {
      Base64.RoundTrip(h.data[k]);
    }
  }

  /**
   * Every honeytoken of a configuration that passed validation is in the store after seeding,
   * with its own type and data and beside its Namespace, whatever is seeded afterwards.
   */
  lemma HoneytokensSeeded(w: World, cfg: Config, kubeSys: bool, rand: bool, later: seq<Item>, i: nat)
    requires Plausible(w) && ValidNamespaces(cfg.namespaces) && ValidHoneytokens(cfg) && i < |cfg.honeytokens|
    ensures var h := cfg.honeytokens[i];
      var objects := SeedAll(w, START, SeedList(w, cfg, kubeSys, rand) + later).store.objects;
      && Core("namespaces", "", NamespaceOf(h)) in objects
      && Core("secrets", NamespaceOf(h), h.name) in objects
      && Shows(objects[Core("secrets", NamespaceOf(h), h.name)], h)
  {
    hide ValidHoneytoken, ValidNamespaces, Distinct, SeedAll, SeedList, NamespaceOrder, AllSecrets, Shows, NoSecrets;
    hide AfterNamespaces, AfterFixed, NamespaceOf, Tally, TotalBytes, TotalEntries, Plausible;
    var s2 := AfterFixed(w, cfg, kubeSys, rand);
    HomeIsSeeded(cfg);
    NoneSkipped(cfg.honeytokens, cfg.namespaces, NamespaceOrder(cfg));
    NamespacesStored(w, cfg);
    FixedStored(w, cfg, kubeSys, rand);
    Phases(w, cfg, kubeSys, rand, later);
    NothingLost(w, s2, SecretList(cfg.honeytokens), later, MAX_STORED_BYTES - 64 * SMALL);
    SecretSurvives(w, cfg, s2, later, i);
  }

  lemma NothingLost(w: World, s: Seeded, xs: seq<Item>, ys: seq<Item>, bytes: int)
    requires Tally(s, bytes)
    ensures Keeps(s, SeedAll(w, SeedAll(w, s, xs), ys))
  {
    hide SeedAll, OnlyAdds;
    SeedAllTally(w, s, xs, s.store.bytes);
    SeedAllTally(w, SeedAll(w, s, xs), ys, SeedAll(w, s, xs).store.bytes);
  }

  lemma SecretSurvives(w: World, cfg: Config, s: Seeded, later: seq<Item>, i: nat)
    requires Plausible(w) && ValidHoneytokens(cfg) && i < |cfg.honeytokens|
    requires Tally(s, MAX_STORED_BYTES - 64 * SMALL) && s.count <= 84 && NoSecrets(s)
    ensures var h := cfg.honeytokens[i];
      var objects := SeedAll(w, SeedAll(w, s, SecretList(cfg.honeytokens)), later).store.objects;
      var key := Core("secrets", NamespaceOf(h), h.name);
      key in objects && Shows(objects[key], h)
  {
    hide ValidHoneytoken, Distinct, SeedAll, StoredForm, Shows, SecretList, NamespaceOf, SeedNamespace, OnlyAdds;
    var hs, h := cfg.honeytokens, cfg.honeytokens[i];
    SecretsStored(w, cfg, s);
    var t := SeedAll(w, s, SecretList(hs));
    SeedAllTally(w, s, SecretList(hs), s.store.bytes);
    SeedAllTally(w, t, later, t.store.bytes);
    SecretKept(h, cfg.namespaces);
    ListedKey(hs, i);
    StoredShows(w, h, cfg.namespaces, s.store.revision + i + 1);
  }

  lemma ListedKey(hs: seq<Honeytoken>, i: nat)
    requires i < |hs|
    ensures |SecretList(hs)| == |hs| && SecretList(hs)[i] == SecretItem(hs[i])
    ensures SecretItem(hs[i]).key == Core("secrets", SeedNamespace(hs[i]), hs[i].name)
  {
  }

  lemma HomeIsSeeded(cfg: Config)
    requires ValidNamespaces(cfg.namespaces) && ValidHoneytokens(cfg)
    ensures forall i :: 0 <= i < |cfg.honeytokens| ==> NamespaceOf(cfg.honeytokens[i]) in NamespaceOrder(cfg)
  {
    hide NamespaceOrder, DnsLabel, DnsSubdomain, ValidType, ValidData;
    NamespacesSeeded(cfg);
  }

  lemma Phases(w: World, cfg: Config, kubeSys: bool, rand: bool, later: seq<Item>)
    requires |cfg.honeytokens| <= MAX_HONEYTOKENS
    requires AllSecrets(cfg.honeytokens, NamespaceOrder(cfg)) == SecretList(cfg.honeytokens)
    ensures SeedAll(w, START, SeedList(w, cfg, kubeSys, rand) + later)
         == SeedAll(w, SeedAll(w, AfterFixed(w, cfg, kubeSys, rand), SecretList(cfg.honeytokens)), later)
  {
    hide SeedAll, NamespaceOrder, AllSecrets, SecretItem, FixedItems, NamespaceItems, SecretList;
    var names, fixed := NamespaceItems(NamespaceOrder(cfg)), FixedItems(w, kubeSys, rand);
    SeedAllConcat(w, START, SeedList(w, cfg, kubeSys, rand), later);
    SeedAllConcat(w, START, names + fixed, SecretList(cfg.honeytokens));
    SeedAllConcat(w, START, names, fixed);
  }
}
