/** API.seed and encodeSecretData, loop by loop, against Seeding. */
module Seeder {
  import opened Sums
  import opened Text
  import opened Json
  import opened Names
  import opened StoreModel
  import opened ConfigRules
  import opened Seeding
  import opened ObjectStore
  import Base64

  lemma LongEntry(data: map<string, string>, k: string)
    requires k in data && |data[k]| > MAX_STORED_OBJECT_BYTES
    ensures !Encodable(data)
  {
    var w := EntryLengths(data);
    TotalExtract(w, k);
    TotalNonNegative(w - {k});
  }

  lemma EntriesRemain(data: map<string, string>, pending: set<string>)
    requires pending <= data.Keys
    ensures 0 <= Remaining(EntryLengths(data), pending)
  {
    EntryKeys(data);
    TotalNonNegative(EntryLengths(data) - (data.Keys - pending));
  }

  /** The visited entries have valid keys and are encoded so far. */
  ghost predicate Visited(data: map<string, string>, pending: set<string>, encoded: map<string, string>) {
    && encoded.Keys == data.Keys - pending
    && forall k :: k in encoded ==> DataKey(k) && encoded[k] == Base64.Encode(data[k])
  }

  lemma NothingVisited(data: map<string, string>)
    ensures Visited(data, data.Keys, map[])
  {
  }

  lemma VisitOne(data: map<string, string>, pending: set<string>, encoded: map<string, string>, k: string)
    requires Visited(data, pending, encoded) && k in pending && pending <= data.Keys && DataKey(k)
    ensures Visited(data, pending - {k}, encoded[k := Base64.Encode(data[k])])
  {
    hide DataKey, Base64.Encode;
  }

  lemma AllVisited(data: map<string, string>, encoded: map<string, string>)
    requires Visited(data, {}, encoded) && |data| <= MAX_SECRET_DATA_KEYS && Total(EntryLengths(data)) <= MAX_STORED_OBJECT_BYTES
    ensures encoded == EncodedData(data) && Encodable(data)
  {
    hide DataKey, Base64.Encode, EntryLengths;
  }

  lemma BadEntry(data: map<string, string>, k: string)
    requires k in data && !DataKey(k)
    ensures !Encodable(data)
  {
    hide EntryLengths;
  }

  lemma EntryWeight(data: map<string, string>, k: string)
    requires k in data
    ensures EntryLengths(data).Keys == data.Keys && EntryLengths(data)[k] == |k| + (|data[k]| + 2) / 3 * 4
  {
  }

  lemma EntryKeys(data: map<string, string>)
    ensures EntryLengths(data).Keys == data.Keys
  {
  }

  /** One entry's bytes fit, or the whole map is too long. */
  lemma EntryFits(data: map<string, string>, pending: set<string>, k: string, bytes: int)
    requires pending <= data.Keys && k in pending && bytes + Remaining(EntryLengths(data), pending) == Total(EntryLengths(data))
    ensures var more := |k| + (|data[k]| + 2) / 3 * 4;
      && bytes + more + Remaining(EntryLengths(data), pending - {k}) == Total(EntryLengths(data))
      && (bytes + more > MAX_STORED_OBJECT_BYTES ==> !Encodable(data))
  {
    hide Remaining, EntryLengths;
    EntryWeight(data, k);
    RemainingStep(EntryLengths(data), pending, k);
    EntriesRemain(data, pending - {k});
  }

  /** Visits the entries in any order; every early refusal means the whole map is not encodable. */
  method EncodeSecretData(data: map<string, string>) returns (encoded: map<string, string>, ok: bool)
    ensures ok == Encodable(data)
    ensures ok ==> encoded == EncodedData(data)
  {
    encoded := map[];
    if |data| > MAX_SECRET_DATA_KEYS {
      assert !Encodable(data);
      return encoded, false;
    }
    hide DataKey, Base64.Encode, Remaining, EntryLengths, Visited, Encodable, EncodedData;
    NothingVisited(data);
    var encodedBytes: int := 0;
    var pending := data.Keys;
    EntryKeys(data);
    RemainingEnds(EntryLengths(data));
    while pending != {}
      invariant pending <= data.Keys
      invariant Visited(data, pending, encoded)
      invariant encodedBytes + Remaining(EntryLengths(data), pending) == Total(EntryLengths(data))
      invariant 0 <= encodedBytes <= MAX_STORED_OBJECT_BYTES
      decreases pending
    {
      var key :| key in pending;
      var value := data[key];
      var valid := ValidSecretDataKey(key);
      if !valid {
        BadEntry(data, key);
        return map[], false;
      }
      VisitOne(data, pending, encoded, key);
      if |value| > MAX_STORED_OBJECT_BYTES {
        LongEntry(data, key);
        return map[], false;
      }
      var valueBytes := (|value| + 2) / 3 * 4;
      EntryFits(data, pending, key, encodedBytes);
      if encodedBytes + |key| + valueBytes > MAX_STORED_OBJECT_BYTES {
        return map[], false;
      }
      encodedBytes := encodedBytes + |key| + valueBytes;
      pending := pending - {key};
      encoded := encoded[key := Base64.Encode(value)];
    }
    AllVisited(data, encoded);
    ok := true;
  }

  /** The order in which namespaces are first offered: built in, then needed by a token, then configured. */
  method CollectNamespaces(cfg: Config) returns (order: seq<string>)
    ensures order == NamespaceOrder(cfg)
  {
    hide DnsLabel, DnsSubdomain, AddAll;
    order := [];
    ghost var offered: seq<string> := [];
    NothingOffered();
    for i := 0 to |BUILT_IN|
      invariant offered == BUILT_IN[..i] && order == AddAll(offered)
    {
      order := Add(order, BUILT_IN[i], offered);
      offered := offered + [BUILT_IN[i]];
    }
    assert offered == BUILT_IN;
    var hs := AtMost(cfg.honeytokens, MAX_SEED_SECRETS);
    order := AddTokenNamespaces(order, hs, offered);
    offered := offered + TokenNamespaces(hs);
    var configured := AtMost(cfg.namespaces, MAX_SEED_OBJECTS);
    ghost var before := offered;
    for i := 0 to |configured|
      invariant offered == before + Trimmed(configured[..i]) && order == AddAll(offered)
    {
      assert Trimmed(configured[..i + 1]) == Trimmed(configured[..i]) + [TrimSpace(configured[i])];
      order := Add(order, TrimSpace(configured[i]), offered);
      offered := offered + [TrimSpace(configured[i])];
    }
    assert configured[..|configured|] == configured;
  }

  method AddTokenNamespaces(before: seq<string>, hs: seq<Honeytoken>, ghost first: seq<string>) returns (order: seq<string>)
    requires before == AddAll(first)
    ensures order == AddAll(first + TokenNamespaces(hs))
  {
    hide DnsSubdomain, AddAll;
    order := before;
    ghost var offered: seq<string> := first;
    for i := 0 to |hs|
      invariant offered == first + TokenNamespaces(hs[..i]) && order == AddAll(offered)
    {
      assert hs[..i + 1][..i] == hs[..i];
      var named := ValidObjectName(hs[i].name);
      if !named {
        continue;
      }
      var namespace := TrimSpace(hs[i].namespace);
      if namespace == "" {
        namespace := "default";
      }
      order := Add(order, namespace, offered);
      offered := offered + [namespace];
    }
    assert hs[..|hs|] == hs;
  }

  lemma NothingOffered()
    ensures AddAll([]) == []
  {
  }

  method Add(order: seq<string>, namespace: string, ghost offered: seq<string>) returns (r: seq<string>)
    requires order == AddAll(offered)
    ensures r == AddAll(offered + [namespace])
  {
    hide DnsLabel;
    assert (offered + [namespace])[..|offered|] == offered;
    var valid := ValidNamespaceName(namespace);
    if |order| >= MAX_SEED_NAMESPACES || !valid || namespace in order {
      return order;
    }
    return order + [namespace];
  }

  /** One seeded object under the seeding budget. */
  method SeedItem(store: ObjectStore, w: World, seededObjects: nat, item: Item) returns (count: nat)
    requires store.Valid()
    modifies store
    ensures store.Valid()
    ensures Seeded(store.View(), count) == SeedOne(w, Seeded(old(store.View()), seededObjects), item)
  {
    hide Prepared, PutVerdict, StoreModel.Put, ChannelsOpen;
    if seededObjects >= MAX_SEED_OBJECTS {
      return seededObjects;
    }
    ghost var before := store.View();
    var result, stamped := store.Put(item.key, Prepared(w, item), Added);
    if result != Stored {
      PutRefused(before, item.key, Prepared(w, item), Added);
      return seededObjects;
    }
    return seededObjects + 1;
  }

  method SeedItems(store: ObjectStore, w: World, seededObjects: nat, items: seq<Item>) returns (count: nat)
    requires store.Valid()
    modifies store
    ensures store.Valid()
    ensures Seeded(store.View(), count) == SeedAll(w, Seeded(old(store.View()), seededObjects), items)
  {
    hide SeedOne, ChannelsOpen;
    count := seededObjects;
    ghost var start := Seeded(store.View(), seededObjects);
    for i := 0 to |items|
      invariant store.Valid()
      invariant Seeded(store.View(), count) == SeedAll(w, start, items[..i])
    {
      assert items[..i + 1][..i] == items[..i];
      count := SeedItem(store, w, count, items[i]);
    }
    assert items[..|items|] == items;
  }

  /** The checks in front of one honeytoken's Secret; a refused honeytoken is passed over. */
  method PrepareSecret(h: Honeytoken, namespaces: seq<string>) returns (items: seq<Item>)
    ensures items == SecretItems(h, namespaces)
  {
    hide DnsLabel, DnsSubdomain, Encodable;
    var named := ValidObjectName(h.name);
    if !named {
      return [];
    }
    var namespace := TrimSpace(h.namespace);
    if namespace == "" {
      namespace := "default";
    }
    var labelled := ValidNamespaceName(namespace);
    if !labelled || namespace !in namespaces {
      return [];
    }
    var data, ok := EncodeSecretData(h.data);
    if !ok {
      return [];
    }
    var secretType := TrimSpace(h.kind);
    if secretType == "" {
      secretType := "Opaque";
    }
    if |secretType| > 256 {
      return [];
    }
    return [Item(Core("secrets", namespace, h.name), map["type" := Str(secretType), "data" := Texts(data)])];
  }

  /** API.seed; `later` is whatever follows the honeytokens. */
  method Seed(store: ObjectStore, w: World, cfg: Config, kubeSys: bool, rand: bool, later: seq<Item>) returns (count: nat)
    requires store.Valid()
    modifies store
    ensures store.Valid()
    ensures Seeded(store.View(), count) == SeedAll(w, Seeded(old(store.View()), 0), SeedList(w, cfg, kubeSys, rand) + later)
  {
    hide SeedAll, SecretItems, NamespaceItems, FixedItems, ChannelsOpen;
    ghost var start := Seeded(store.View(), 0);
    var order := CollectNamespaces(cfg);
    count := SeedItems(store, w, 0, NamespaceItems(order));
    count := SeedItems(store, w, count, FixedItems(w, kubeSys, rand));
    ghost var fixed := NamespaceItems(order) + FixedItems(w, kubeSys, rand);
    SeedAllConcat(w, start, NamespaceItems(order), FixedItems(w, kubeSys, rand));
    var hs := AtMost(cfg.honeytokens, MAX_SEED_SECRETS);
    assert fixed + AllSecrets(hs[..0], order) == fixed;
    for i := 0 to |hs|
      invariant store.Valid()
      invariant Seeded(store.View(), count) == SeedAll(w, start, fixed + AllSecrets(hs[..i], order))
    {
      assert hs[..i + 1][..i] == hs[..i];
      var items := PrepareSecret(hs[i], order);
      SeedAllConcat(w, start, fixed + AllSecrets(hs[..i], order), items);
      assert fixed + AllSecrets(hs[..i + 1], order) == fixed + AllSecrets(hs[..i], order) + items;
      count := SeedItems(store, w, count, items);
    }
    assert hs[..|hs|] == hs;
    SeedAllConcat(w, start, SeedList(w, cfg, kubeSys, rand), later);
    count := SeedItems(store, w, count, later);
  }
}
