/** What the API server stores before its first request, from a configuration that passed validation. */
module Seeding {
  import opened Sums
  import opened Text
  import opened Json
  import opened Names
  import opened StoreModel
  import opened ConfigRules
  import Base64

  const MAX_SEED_OBJECTS := 512
  const MAX_SEED_NAMESPACES := 128
  const MAX_SEED_SECRETS := 128
  const MAX_SECRET_DATA_KEYS := 512

  /** What seeding takes from elsewhere: the clock, the UID digest, the catalog and the fixed bodies. */
  datatype World = World(
    startedAt: string,
    uid: ObjectKey -> string,
    kindOf: ObjectKey -> (string, bool),
    body: ObjectKey -> Object)

  /** A time in RFC 3339 form, UIDs of 32 hexadecimal digits and four dashes, and short kinds. */
  ghost predicate Plausible(w: World) {
    && |w.startedAt| == 20
    && (forall k :: |w.uid(k)| == 36)
    && (forall k :: |w.kindOf(k).0| <= 63)
  }

  datatype Item = Item(key: ObjectKey, obj: Object)
  datatype Seeded = Seeded(store: Store, count: nat)

  const START := Seeded(FRESH, 0)

  // ----- one seeded object -----

  function ApiVersion(key: ObjectKey): string {
    if key.group == "" then key.version else key.group + "/" + key.version
  }

  function SeedMetadata(w: World, item: Item): Object {
    var named := Metadata(item.obj)["name" := Str(item.key.name)];
    var placed := if item.key.namespace != "" then named["namespace" := Str(item.key.namespace)] else named;
    var identified := placed["uid" := Str(w.uid(item.key))];
    if "creationTimestamp" in identified then identified else identified["creationTimestamp" := Str(w.startedAt)]
  }

  function Prepared(w: World, item: Item): Object {
    var versioned := item.obj["apiVersion" := Str(ApiVersion(item.key))];
    var (kind, known) := w.kindOf(item.key);
    var described := if known then versioned["kind" := Str(kind)] else versioned;
    described["metadata" := Obj(SeedMetadata(w, item))]
  }

  ghost predicate Admitted(w: World, s: Seeded, item: Item) {
    s.count < MAX_SEED_OBJECTS && PutVerdict(s.store, item.key, Prepared(w, item), Added) == Stored
  }

  ghost function SeedOne(w: World, s: Seeded, item: Item): Seeded {
    if Admitted(w, s, item) then Seeded(Put(s.store, item.key, Prepared(w, item), Added), s.count + 1) else s
  }

  ghost function SeedAll(w: World, s: Seeded, items: seq<Item>): Seeded {
    if items == [] then s else SeedOne(w, SeedAll(w, s, items[..|items| - 1]), items[|items| - 1])
  }

  lemma {:induction false} SeedAllConcat(w: World, s: Seeded, xs: seq<Item>, ys: seq<Item>)
    ensures SeedAll(w, s, xs + ys) == SeedAll(w, SeedAll(w, s, xs), ys)
  {
    hide SeedOne;
    if ys == [] {
      assert xs + ys == xs;
    } else {
      SeedAllConcat(w, s, xs, ys[..|ys| - 1]);
      assert (xs + ys)[..|xs + ys| - 1] == xs + ys[..|ys| - 1];
    }
  }

  // ----- namespaces -----

  function SeedNamespace(h: Honeytoken): string {
    if TrimSpace(h.namespace) == "" then "default" else TrimSpace(h.namespace)
  }

  function AddNamespace(order: seq<string>, n: string): seq<string> {
    if |order| >= MAX_SEED_NAMESPACES || !DnsLabel(n) || n in order then order else order + [n]
  }

  function AddAll(names: seq<string>): seq<string> {
    if names == [] then [] else AddNamespace(AddAll(names[..|names| - 1]), names[|names| - 1])
  }

  function TokenNamespaces(hs: seq<Honeytoken>): seq<string> {
    if hs == [] then []
    else
      var h := hs[|hs| - 1];
      TokenNamespaces(hs[..|hs| - 1]) + (if DnsSubdomain(h.name) then [SeedNamespace(h)] else [])
  }

  function Trimmed(names: seq<string>): seq<string> {
    seq(|names|, i requires 0 <= i < |names| => TrimSpace(names[i]))
  }

  function AtMost<T>(s: seq<T>, n: nat): seq<T> {
    if |s| > n then s[..n] else s
  }

  function Offered(cfg: Config): seq<string> {
    BUILT_IN + TokenNamespaces(AtMost(cfg.honeytokens, MAX_SEED_SECRETS)) + Trimmed(AtMost(cfg.namespaces, MAX_SEED_OBJECTS))
  }

  function NamespaceOrder(cfg: Config): seq<string> {
    AddAll(Offered(cfg))
  }

  function NamespaceItem(n: string): Item {
    Item(ObjectKey("", "v1", "namespaces", "", n),
         map["metadata" := Obj(map["labels" := Texts(map["kubernetes.io/metadata.name" := n])]),
             "status" := Obj(map["phase" := Str("Active")])])
  }

  function NamespaceItems(names: seq<string>): seq<Item> {
    seq(|names|, i requires 0 <= i < |names| => NamespaceItem(names[i]))
  }

  // ----- the fixed cluster objects -----

  function Core(resource: string, namespace: string, name: string): ObjectKey {
    ObjectKey("", "v1", resource, namespace, name)
  }

  function NodeKeys(name: string): seq<ObjectKey> {
    [Core("nodes", "", name), ObjectKey("coordination.k8s.io", "v1", "leases", "kube-node-lease", name)]
  }

  function FixedKeys(kubeSys: bool, rand: bool): seq<ObjectKey> {
    NodeKeys("control-plane-01") + NodeKeys("worker-01") + NodeKeys("worker-02")
    + [Core("services", "default", "kubernetes"), Core("endpoints", "default", "kubernetes")]
    + (if !kubeSys then [] else
         [Core("pods", "kube-system", "coredns-6d8b4f6b7f-k7m2p"), Core("pods", "kube-system", "kube-proxy-2k9jv"),
          Core("pods", "kube-system", "metrics-server-7db5f8d5b9-5c2tx"), Core("services", "kube-system", "kube-dns")])
    + (if !rand then [] else
         [Core("pods", "default", "api-6d7949c6d7-vzd8q"), Core("pods", "default", "web-7f5cb9d59c-hk6qn"),
          Core("pods", "default", "redis-0"), ObjectKey("apps", "v1", "deployments", "default", "web")])
  }

  function FixedItems(w: World, kubeSys: bool, rand: bool): seq<Item> {
    var keys := FixedKeys(kubeSys, rand);
    seq(|keys|, i requires 0 <= i < |keys| => Item(keys[i], w.body(keys[i])))
  }

  // ----- honeytoken secrets -----

  function EntryLengths(data: map<string, string>): map<string, int> {
    map k | k in data :: |k| + (|data[k]| + 2) / 3 * 4
  }

  function EncodedData(data: map<string, string>): map<string, string> {
    map k | k in data :: Base64.Encode(data[k])
  }

  ghost predicate Encodable(data: map<string, string>) {
    && |data| <= MAX_SECRET_DATA_KEYS
    && (forall k :: k in data ==> DataKey(k))
    && Total(EntryLengths(data)) <= MAX_STORED_OBJECT_BYTES
  }

  function SecretType(h: Honeytoken): string {
    if TrimSpace(h.kind) == "" then "Opaque" else TrimSpace(h.kind)
  }

  function SecretKey(h: Honeytoken): ObjectKey {
    Core("secrets", SeedNamespace(h), h.name)
  }

  function SecretItem(h: Honeytoken): Item {
    Item(SecretKey(h), map["type" := Str(SecretType(h)), "data" := Texts(EncodedData(h.data))])
  }

  ghost function SecretItems(h: Honeytoken, namespaces: seq<string>): seq<Item> {
    if DnsSubdomain(h.name) && DnsLabel(SeedNamespace(h)) && SeedNamespace(h) in namespaces && Encodable(h.data) && |SecretType(h)| <= 256
    then [SecretItem(h)] else []
  }

  ghost function AllSecrets(hs: seq<Honeytoken>, namespaces: seq<string>): seq<Item> {
    if hs == [] then [] else AllSecrets(hs[..|hs| - 1], namespaces) + SecretItems(hs[|hs| - 1], namespaces)
  }

  /** Everything seeded up to and including the honeytokens, in the order it is seeded. */
  ghost function SeedList(w: World, cfg: Config, kubeSys: bool, rand: bool): seq<Item> {
    NamespaceItems(NamespaceOrder(cfg)) + FixedItems(w, kubeSys, rand)
    + AllSecrets(AtMost(cfg.honeytokens, MAX_SEED_SECRETS), NamespaceOrder(cfg))
  }
}
