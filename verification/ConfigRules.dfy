/** The namespaces and honeytokens a configuration may declare. */
module ConfigRules {
  import opened Sums
  import opened Text
  import opened Names

  const MAX_NAMESPACES := 64
  const MAX_HONEYTOKENS := 64
  const MAX_DATA_ENTRIES := 16
  const MAX_TOTAL_DATA_ENTRIES := 256
  const MAX_VALUE_BYTES := 4096
  const MAX_SECRET_PAYLOAD := 0x4000
  const MAX_TYPE := 256

  /** Data values are byte strings, one character a byte. */
  datatype Honeytoken = Honeytoken(name: string, namespace: string, kind: string, data: map<string, string>)

  /** `tokenBytes` is what the legacy token values add up to. */
  datatype Config = Config(namespaces: seq<string>, honeytokens: seq<Honeytoken>, tokenBytes: nat)

  const BUILT_IN := ["default", "kube-system", "kube-public", "kube-node-lease"]

  function NamespaceOf(h: Honeytoken): string {
    if h.namespace == "" then "default" else h.namespace
  }

  ghost predicate ValidNamespaces(namespaces: seq<string>) {
    && |namespaces| <= MAX_NAMESPACES
    && (forall i :: 0 <= i < |namespaces| ==> DnsLabel(namespaces[i]))
    && (forall i, j :: 0 <= i < j < |namespaces| ==> namespaces[i] != namespaces[j])
  }

  /** "Opaque", or a subdomain and a label around one slash. */
  predicate ValidType(kind: string) {
    && 1 <= |kind| <= MAX_TYPE
    && (kind == "Opaque" ||
        (|Split(kind, '/')| == 2 && DnsSubdomain(Split(kind, '/')[0]) && DnsLabel(Split(kind, '/')[1])))
  }

  function ValueLengths(data: map<string, string>): map<string, int> {
    map k | k in data :: |data[k]|
  }

  ghost predicate ValidData(data: map<string, string>) {
    1 <= |data| <= MAX_DATA_ENTRIES && forall k :: k in data ==> DataKey(k) && |data[k]| <= MAX_VALUE_BYTES
  }

  ghost predicate ValidHoneytoken(h: Honeytoken, namespaces: seq<string>) {
    && DnsSubdomain(h.name)
    && DnsLabel(NamespaceOf(h))
    && (NamespaceOf(h) in BUILT_IN || NamespaceOf(h) in namespaces)
    && ValidType(h.kind)
    && ValidData(h.data)
  }

  ghost function TotalEntries(hs: seq<Honeytoken>): nat {
    if hs == [] then 0 else TotalEntries(hs[..|hs| - 1]) + |hs[|hs| - 1].data|
  }

  ghost function TotalBytes(hs: seq<Honeytoken>): int {
    if hs == [] then 0 else TotalBytes(hs[..|hs| - 1]) + Total(ValueLengths(hs[|hs| - 1].data))
  }

  ghost predicate Distinct(hs: seq<Honeytoken>) {
    forall i, j :: 0 <= i < j < |hs| ==> hs[i].name != hs[j].name || NamespaceOf(hs[i]) != NamespaceOf(hs[j])
  }

  ghost predicate ValidHoneytokens(cfg: Config) {
    && |cfg.honeytokens| <= MAX_HONEYTOKENS
    && (forall i :: 0 <= i < |cfg.honeytokens| ==> ValidHoneytoken(cfg.honeytokens[i], cfg.namespaces))
    && Distinct(cfg.honeytokens)
    && TotalEntries(cfg.honeytokens) <= MAX_TOTAL_DATA_ENTRIES
    && cfg.tokenBytes + TotalBytes(cfg.honeytokens) <= MAX_SECRET_PAYLOAD
  }

  method ValidateNamespaces(namespaces: seq<string>) returns (ok: bool)
    ensures ok == ValidNamespaces(namespaces)
  {
    if |namespaces| > MAX_NAMESPACES {
      return false;
    }
    hide DnsLabel;
    var seen: set<string> := {};
    for i := 0 to |namespaces|
      invariant seen == set n | n in namespaces[..i]
      invariant forall k :: 0 <= k < i ==> DnsLabel(namespaces[k])
      invariant forall j, k :: 0 <= j < k < i ==> namespaces[j] != namespaces[k]
    {
      var valid := ValidDNSLabel(namespaces[i]);
      if !valid {
        return false;
      }
      if namespaces[i] in seen {
        assert namespaces[i] in namespaces[..i];
        return false;
      }
      assert namespaces[..i + 1] == namespaces[..i] + [namespaces[i]];
      assert forall k :: 0 <= k < i ==> namespaces[k] in namespaces[..i];
      seen := seen + {namespaces[i]};
    }
    return true;
  }

  method ValidHoneytokenType(kind: string) returns (ok: bool)
    ensures ok == ValidType(kind)
  {
    if |kind| == 0 || |kind| > MAX_TYPE {
      return false;
    }
    if kind == "Opaque" {
      return true;
    }
    var parts := Split(kind, '/');
    if |parts| != 2 {
      return false;
    }
    var group := ValidTokenName(parts[0]);
    var suffix := ValidDNSLabel(parts[1]);
    ok := group && suffix;
  }

  /** The inner loop over one token's data, in whatever order the map yields it. */
  method ValidateData(data: map<string, string>) returns (ok: bool, bytes: nat)
    ensures ok == ValidData(data)
    ensures ok ==> bytes == Total(ValueLengths(data))
  {
    bytes := 0;
    if |data| == 0 || |data| > MAX_DATA_ENTRIES {
      return false, 0;
    }
    hide DataKey, Remaining;
    ghost var w := ValueLengths(data);
    var pending := data.Keys;
    assert w.Keys == data.Keys;
    RemainingEnds(w);
    while pending != {}
      invariant pending <= data.Keys
      invariant forall k :: k in data && k !in pending ==> DataKey(k) && |data[k]| <= MAX_VALUE_BYTES
      invariant bytes + Remaining(w, pending) == Total(w)
      decreases pending
    {
      var k :| k in pending;
      var valid := ValidSecretDataKey(k);
      if !valid || |data[k]| > MAX_VALUE_BYTES {
        return false, 0;
      }
      RemainingStep(w, pending, k);
      pending := pending - {k};
      bytes := bytes + |data[k]|;
    }
    ok := true;
  }

  /** The separator cannot occur in a namespace, so equal identifiers mean equal pairs. */
  lemma SecretIdInjective(a: string, b: string, c: string, d: string)
    requires '\0' !in a && '\0' !in c && a + ['\0'] + b == c + ['\0'] + d
    ensures a == c && b == d
  {
    var s := a + ['\0'] + b;
    assert s[..|a|] == a && s[..|c|] == c;
    FindUnique(s, '\0', |a|);
    FindUnique(s, '\0', |c|);
    assert s[|a| + 1..] == b;
    assert (c + ['\0'] + d)[|c| + 1..] == d;
  }

  function SecretId(h: Honeytoken): string {
    NamespaceOf(h) + ['\0'] + h.name
  }

  lemma SameSecret(g: Honeytoken, h: Honeytoken)
    requires DnsLabel(NamespaceOf(g)) && DnsLabel(NamespaceOf(h))
    ensures SecretId(g) == SecretId(h) <==> g.name == h.name && NamespaceOf(g) == NamespaceOf(h)
  {
    if SecretId(g) == SecretId(h) {
      SecretIdInjective(NamespaceOf(g), g.name, NamespaceOf(h), h.name);
    }
  }

  predicate SameEntry(g: Honeytoken, h: Honeytoken) {
    g.name == h.name && NamespaceOf(g) == NamespaceOf(h)
  }

  lemma DistinctSnoc(hs: seq<Honeytoken>, i: nat)
    requires i < |hs|
    ensures Distinct(hs[..i + 1]) <==> Distinct(hs[..i]) && forall k :: 0 <= k < i ==> !SameEntry(hs[k], hs[i])
  {
    hide NamespaceOf;
    assert forall k :: 0 <= k < i ==> hs[..i + 1][k] == hs[..i][k];
  }

  /** The identifiers seen so far tell whether the next entry repeats one. */
  lemma SeenDecides(hs: seq<Honeytoken>, i: nat, seen: set<string>)
    requires i < |hs| && forall k :: 0 <= k <= i ==> DnsLabel(NamespaceOf(hs[k]))
    requires forall id :: id in seen <==> exists k :: 0 <= k < i && SecretId(hs[k]) == id
    ensures SecretId(hs[i]) !in seen <==> forall k :: 0 <= k < i ==> !SameEntry(hs[k], hs[i])
  {
    forall k | 0 <= k < i ensures SecretId(hs[k]) == SecretId(hs[i]) <==> SameEntry(hs[k], hs[i]) {
      SameSecret(hs[k], hs[i]);
    }
    hide SecretId, NamespaceOf, DnsLabel;
  }

  method ValidateEntry(h: Honeytoken, namespaces: seq<string>) returns (ok: bool, bytes: nat)
    ensures ok == ValidHoneytoken(h, namespaces)
    ensures ok ==> bytes == Total(ValueLengths(h.data))
  {
    hide DnsLabel, DnsSubdomain, ValidData, ValidType;
    bytes := 0;
    var nameOk := ValidTokenName(h.name);
    if !nameOk {
      return false, 0;
    }
    var namespace := if h.namespace == "" then "default" else h.namespace;
    var labelOk := ValidDNSLabel(namespace);
    if !labelOk || !(namespace in BUILT_IN || namespace in namespaces) {
      return false, 0;
    }
    var typeOk := ValidHoneytokenType(h.kind);
    if !typeOk {
      return false, 0;
    }
    ok, bytes := ValidateData(h.data);
  }

  /** The entries before `i` pass, and these are their totals. */
  ghost predicate PassedUpTo(cfg: Config, i: nat, entries: int, bytes: int) {
    && i <= |cfg.honeytokens|
    && (forall k :: 0 <= k < i ==> ValidHoneytoken(cfg.honeytokens[k], cfg.namespaces))
    && Distinct(cfg.honeytokens[..i])
    && entries == TotalEntries(cfg.honeytokens[..i]) && bytes == cfg.tokenBytes + TotalBytes(cfg.honeytokens[..i])
  }

  ghost predicate SeenUpTo(hs: seq<Honeytoken>, i: nat, seen: set<string>)
    requires i <= |hs|
  {
    forall id :: id in seen <==> exists k :: 0 <= k < i && SecretId(hs[k]) == id
  }

  lemma NonePassed(cfg: Config)
    ensures PassedUpTo(cfg, 0, 0, cfg.tokenBytes) && SeenUpTo(cfg.honeytokens, 0, {})
  {
  }

  /** Whether the entry at `i` repeats an earlier one, which its identifier tells. */
  lemma RepeatedOrNew(cfg: Config, i: nat, entries: int, bytes: int, seen: set<string>)
    requires PassedUpTo(cfg, i, entries, bytes) && i < |cfg.honeytokens|
    requires ValidHoneytoken(cfg.honeytokens[i], cfg.namespaces) && SeenUpTo(cfg.honeytokens, i, seen)
    ensures Distinct(cfg.honeytokens[..i + 1]) <==> SecretId(cfg.honeytokens[i]) !in seen
  {
    var hs := cfg.honeytokens;
    LabelsUpTo(cfg, i, entries, bytes);
    SeenDecides(hs, i, seen);
    DistinctSnoc(hs, i);
    hide ValidHoneytoken, Distinct, SameEntry, ValueLengths, SecretId, TotalEntries, TotalBytes, SeenUpTo;
  }

  lemma RepeatRefused(cfg: Config, i: nat)
    requires i < |cfg.honeytokens| && !Distinct(cfg.honeytokens[..i + 1])
    ensures !ValidHoneytokens(cfg)
  {
    hide ValidHoneytoken, Distinct, TotalEntries, TotalBytes;
    NotDistinct(cfg.honeytokens, i + 1);
  }

  lemma OneMorePasses(cfg: Config, i: nat, entries: int, bytes: int)
    requires PassedUpTo(cfg, i, entries, bytes) && i < |cfg.honeytokens|
    requires ValidHoneytoken(cfg.honeytokens[i], cfg.namespaces) && Distinct(cfg.honeytokens[..i + 1])
    ensures var h := cfg.honeytokens[i]; PassedUpTo(cfg, i + 1, entries + |h.data|, bytes + Total(ValueLengths(h.data)))
  {
    hide ValidHoneytoken, Distinct, ValueLengths;
    assert cfg.honeytokens[..i + 1][..i] == cfg.honeytokens[..i];
  }

  lemma LabelsUpTo(cfg: Config, i: nat, entries: int, bytes: int)
    requires PassedUpTo(cfg, i, entries, bytes) && i < |cfg.honeytokens| && ValidHoneytoken(cfg.honeytokens[i], cfg.namespaces)
    ensures forall k :: 0 <= k <= i ==> DnsLabel(NamespaceOf(cfg.honeytokens[k]))
  {
    hide DnsLabel, DnsSubdomain, ValidData, ValidType, Distinct;
  }

  lemma SeenSnoc(hs: seq<Honeytoken>, i: nat, seen: set<string>)
    requires i < |hs| && SeenUpTo(hs, i, seen)
    ensures SeenUpTo(hs, i + 1, seen + {SecretId(hs[i])})
  {
    hide SecretId;
  }

  lemma AllPassed(cfg: Config, entries: int, bytes: int)
    requires PassedUpTo(cfg, |cfg.honeytokens|, entries, bytes) && |cfg.honeytokens| <= MAX_HONEYTOKENS
    ensures ValidHoneytokens(cfg) <==> entries <= MAX_TOTAL_DATA_ENTRIES && bytes <= MAX_SECRET_PAYLOAD
  {
    hide ValidHoneytoken, Distinct;
    assert cfg.honeytokens[..|cfg.honeytokens|] == cfg.honeytokens;
  }

  method ValidateHoneytokens(cfg: Config) returns (ok: bool)
    ensures ok == ValidHoneytokens(cfg)
  {
    hide ValidHoneytoken, Distinct, ValueLengths, PassedUpTo, SeenUpTo, SecretId;
    var hs := cfg.honeytokens;
    if |hs| > MAX_HONEYTOKENS {
      return false;
    }
    var totalEntries: int := 0;
    var totalBytes: int := cfg.tokenBytes;
    var seen: set<string> := {};
    NonePassed(cfg);
    for i := 0 to |hs|
      invariant PassedUpTo(cfg, i, totalEntries, totalBytes) && SeenUpTo(hs, i, seen)
    {
      var entryOk, bytes := ValidateEntry(hs[i], cfg.namespaces);
      if !entryOk {
        return false;
      }
      RepeatedOrNew(cfg, i, totalEntries, totalBytes, seen);
      SeenSnoc(hs, i, seen);
      if SecretId(hs[i]) in seen {
        RepeatRefused(cfg, i);
        return false;
      }
      OneMorePasses(cfg, i, totalEntries, totalBytes);
      seen := seen + {SecretId(hs[i])};
      totalEntries := totalEntries + |hs[i].data|;
      totalBytes := totalBytes + bytes;
    }
    AllPassed(cfg, totalEntries, totalBytes);
    ok := totalEntries <= MAX_TOTAL_DATA_ENTRIES && totalBytes <= MAX_SECRET_PAYLOAD;
  }

  lemma NotDistinct(hs: seq<Honeytoken>, n: nat)
    requires n <= |hs| && !Distinct(hs[..n])
    ensures !Distinct(hs)
  {
  }
}
