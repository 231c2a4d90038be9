/**
 * The API object store as a value, and what each of its operations does to it.
 * The class in ObjectStore.dfy is proved to compute exactly these functions.
 */
module StoreModel {
  import opened Sums
  import opened Text
  import opened Json
  import opened Order
  import opened Names
  import opened Selectors

  const MAX_STORED_OBJECTS := 4096
  const MAX_STORED_BYTES := 0x200_0000
  const MAX_STORED_OBJECT_BYTES := 0x4_0000
  const CHANNEL_CAPACITY := 4
  const MAX_UINT64 := 0xFFFF_FFFF_FFFF_FFFF
  const SUFFIX_WIDTH := 20

  datatype ObjectKey = ObjectKey(group: string, version: string, resource: string, namespace: string, name: string)

  /** What a watch or a list covers: one resource, in one namespace or (empty) in all of them. */
  datatype Scope = Scope(group: string, version: string, resource: string, namespace: string)

  datatype EventType = Added | Modified | Deleted
  datatype Event = Event(kind: EventType, obj: Object)
  datatype Watcher = Watcher(id: nat, scope: Scope, labels: seq<Requirement>, fields: seq<Requirement>)
  datatype Channel = Channel(buffer: seq<Event>, closed: bool)

  datatype Store = Store(
    objects: map<ObjectKey, Object>,
    watchers: map<nat, Watcher>,
    channels: map<nat, Channel>,  // every channel ever made; a consumer may outlive its registration
    nextWatcher: nat,
    revision: nat,
    bytes: int,
    generatedNames: nat)

  const FRESH := Store(map[], map[], map[], 0, 1000, 0, 0)

  predicate InScope(scope: Scope, key: ObjectKey) {
    && scope.group == key.group && scope.version == key.version && scope.resource == key.resource
    && (scope.namespace == "" || scope.namespace == key.namespace)
  }

  function PlaceOf(key: ObjectKey): Place {
    Place(key.namespace, key.name)
  }

  function KeyAt(scope: Scope, p: Place): ObjectKey {
    ObjectKey(scope.group, scope.version, scope.resource, p.namespace, p.name)
  }

  // ----- put -----

  datatype PutResult = Stored | AlreadyExists | NoCapacity

  function Metadata(obj: Object): Object {
    ObjectMap(Member(obj, "metadata"))
  }

  /** put writes the new revision into the caller's object before it decides anything. */
  function Stamp(obj: Object, revision: nat): Object {
    obj["metadata" := Obj(Metadata(obj)["resourceVersion" := Str(Decimal(revision))])]
  }

  ghost function ObjectLength(obj: Object): nat {
    EncodedLength(Obj(obj))
  }

  ghost function StoredLength(objects: map<ObjectKey, Object>, key: ObjectKey): nat {
    if key in objects then ObjectLength(objects[key]) else 0
  }

  /** What put decides about an object it has stamped. */
  ghost function Admission(objects: map<ObjectKey, Object>, bytes: int, key: ObjectKey, stamped: Object, kind: EventType): PutResult {
    var charged := ObjectLength(stamped);
    if charged > MAX_STORED_OBJECT_BYTES then NoCapacity
    else if key in objects && kind == Added then AlreadyExists
    else if key !in objects && |objects| >= MAX_STORED_OBJECTS then NoCapacity
    else if NewTotal(objects, bytes, key, stamped) > MAX_STORED_BYTES then NoCapacity
    else Stored
  }

  ghost function PutVerdict(s: Store, key: ObjectKey, obj: Object, kind: EventType): PutResult {
    Admission(s.objects, s.bytes, key, Stamp(obj, s.revision + 1), kind)
  }

  /** The stored byte count once the stamped object has replaced what its key held. */
  ghost function NewTotal(objects: map<ObjectKey, Object>, bytes: int, key: ObjectKey, stamped: Object): int {
    bytes - StoredLength(objects, key) + ObjectLength(stamped)
  }

  ghost function ChargedTotal(s: Store, key: ObjectKey, obj: Object): int {
    NewTotal(s.objects, s.bytes, key, Stamp(obj, s.revision + 1))
  }

  /** What the store keeps: a copy of the stamped object. */
  function Kept(s: Store, obj: Object): Object {
    CloneObject(Stamp(obj, s.revision + 1))
  }

  /** The store after an accepted put, before anyone is told. */
  function Commit(s: Store, key: ObjectKey, kept: Object, total: int): Store {
    s.(objects := s.objects[key := kept], revision := s.revision + 1, bytes := total)
  }

  ghost function Put(s: Store, key: ObjectKey, obj: Object, kind: EventType): Store {
    if PutVerdict(s, key, obj, kind) != Stored then s
    else Publish(Commit(s, key, Kept(s, obj), ChargedTotal(s, key, obj)), key, Event(kind, Kept(s, obj)))
  }

  lemma PutStored(s: Store, key: ObjectKey, obj: Object, kind: EventType)
    requires PutVerdict(s, key, obj, kind) == Stored
    ensures Put(s, key, obj, kind) == Publish(Commit(s, key, Kept(s, obj), ChargedTotal(s, key, obj)), key, Event(kind, Kept(s, obj)))
  {
  }

  lemma PutRefused(s: Store, key: ObjectKey, obj: Object, kind: EventType)
    requires PutVerdict(s, key, obj, kind) != Stored
    ensures Put(s, key, obj, kind) == s
  {
  }

  // ----- delete -----

  function Remove(s: Store, key: ObjectKey, total: int): Store {
    s.(objects := s.objects - {key}, revision := s.revision + 1, bytes := total)
  }

  ghost function Delete(s: Store, key: ObjectKey): Store {
    if key !in s.objects then s
    else
      Publish(Remove(s, key, s.bytes - StoredLength(s.objects, key)), key, Event(Deleted, CloneObject(s.objects[key])))
  }

  // ----- watch channels -----

  predicate Interested(w: Watcher, key: ObjectKey, obj: Object) {
    InScope(w.scope, key) && Matches(obj, w.labels, w.fields)
  }

  /** A non-blocking send; a full channel is closed instead. */
  function Offer(ch: Channel, e: Event): Channel {
    if |ch.buffer| < CHANNEL_CAPACITY then ch.(buffer := ch.buffer + [e]) else ch.(closed := true)
  }

  /** The registered watchers an event goes to. */
  function Reached(s: Store, key: ObjectKey, e: Event): set<nat> {
    set id | id in s.watchers && Interested(s.watchers[id], key, e.obj)
  }

  predicate Full(s: Store, id: nat) {
    id in s.channels && |s.channels[id].buffer| >= CHANNEL_CAPACITY
  }

  function OfferAll(s: Store, ids: set<nat>, e: Event): Store {
    s.(watchers := map id | id in s.watchers && !(id in ids && Full(s, id)) :: s.watchers[id],
       channels := map id | id in s.channels :: if id in ids then Offer(s.channels[id], e) else s.channels[id])
  }

  lemma OfferOneMore(s: Store, ids: set<nat>, id: nat, e: Event)
    requires id !in ids
    ensures OfferAll(OfferAll(s, ids, e), {id}, e) == OfferAll(s, ids + {id}, e)
  {
    var one, both := OfferAll(OfferAll(s, ids, e), {id}, e), OfferAll(s, ids + {id}, e);
    assert one.watchers == both.watchers;
    assert one.channels == both.channels;
  }

  lemma OfferNone(s: Store, e: Event)
    ensures OfferAll(s, {}, e) == s
  {
    assert OfferAll(s, {}, e).watchers == s.watchers;
    assert OfferAll(s, {}, e).channels == s.channels;
  }

  lemma OfferKeepsOpen(s: Store, ids: set<nat>, e: Event)
    requires ChannelsOpen(s)
    ensures ChannelsOpen(OfferAll(s, ids, e))
  {
  }

  function Publish(s: Store, key: ObjectKey, e: Event): Store {
    OfferAll(s, Reached(s, key, e), e)
  }

  function Watch(s: Store, scope: Scope, labels: seq<Requirement>, fields: seq<Requirement>): Store {
    var id := s.nextWatcher + 1;
    s.(nextWatcher := id,
       watchers := s.watchers[id := Watcher(id, scope, labels, fields)],
       channels := s.channels[id := Channel([], false)])
  }

  function Unwatch(s: Store, id: nat): Store {
    if id !in s.watchers then s
    else s.(watchers := s.watchers - {id},
            channels := if id in s.channels then s.channels[id := s.channels[id].(closed := true)] else s.channels)
  }

  /** The consumer takes the oldest buffered event; an empty channel gives nothing. */
  function Receive(s: Store, id: nat): Store {
    if id in s.channels && s.channels[id].buffer != [] then
      s.(channels := s.channels[id := s.channels[id].(buffer := s.channels[id].buffer[1..])])
    else s
  }

  // ----- generated names -----

  function GeneratedName(s: Store, prefix: string): string {
    prefix + Padded(s.generatedNames + 1, SUFFIX_WIDTH)
  }

  predicate CanGenerate(s: Store, prefix: string) {
    s.generatedNames != MAX_UINT64 && DnsSubdomain(GeneratedName(s, prefix))
  }

  function NextName(s: Store, prefix: string): Store {
    if CanGenerate(s, prefix) then s.(generatedNames := s.generatedNames + 1) else s
  }

  // ----- the effect of put and delete, field by field -----

  lemma PublishKeeps(s: Store, key: ObjectKey, e: Event)
    ensures Publish(s, key, e).objects == s.objects
    ensures Publish(s, key, e).revision == s.revision
    ensures Publish(s, key, e).bytes == s.bytes
    ensures Publish(s, key, e).generatedNames == s.generatedNames
    ensures Publish(s, key, e).nextWatcher == s.nextWatcher
  {
  }

  lemma PutEffect(s: Store, key: ObjectKey, obj: Object, kind: EventType)
    requires PutVerdict(s, key, obj, kind) == Stored
    ensures Put(s, key, obj, kind).objects == s.objects[key := Kept(s, obj)]
    ensures Put(s, key, obj, kind).revision == s.revision + 1
    ensures Put(s, key, obj, kind).bytes == ChargedTotal(s, key, obj)
    ensures Put(s, key, obj, kind).generatedNames == s.generatedNames
  {
    hide Publish, Kept, ChargedTotal, PutVerdict;
    PublishKeeps(Commit(s, key, Kept(s, obj), ChargedTotal(s, key, obj)), key, Event(kind, Kept(s, obj)));
  }

  lemma DeleteMissing(s: Store, key: ObjectKey)
    requires key !in s.objects
    ensures Delete(s, key) == s && s.objects - {key} == s.objects && StoredLength(s.objects, key) == 0
  {
  }

  lemma DeleteEffect(s: Store, key: ObjectKey)
    ensures Delete(s, key).objects == s.objects - {key}
    ensures Delete(s, key).revision == s.revision + (if key in s.objects then 1 else 0)
    ensures Delete(s, key).bytes == s.bytes - StoredLength(s.objects, key)
    ensures Delete(s, key).generatedNames == s.generatedNames
  {
    hide Publish, StoredLength, CloneObject;
    if key in s.objects {
      PublishKeeps(Remove(s, key, s.bytes - StoredLength(s.objects, key)), key, Event(Deleted, CloneObject(s.objects[key])));
    } else {
      DeleteMissing(s, key);
    }
  }

  /** Every registered watcher has a channel, and it is open. */
  ghost predicate ChannelsOpen(s: Store) {
    && (forall id :: id in s.watchers ==> id in s.channels && !s.channels[id].closed)
    && (forall id :: id in s.channels ==> id <= s.nextWatcher)
  }

  // ----- runs -----

  datatype Op =
    | OpPut(key: ObjectKey, obj: Object, kind: EventType)
    | OpDelete(key: ObjectKey)
    | OpWatch(scope: Scope, labels: seq<Requirement>, fields: seq<Requirement>)
    | OpUnwatch(id: nat)
    | OpReceive(id: nat)
    | OpNextName(prefix: string)

  ghost function Step(s: Store, op: Op): Store {
    match op
    case OpPut(key, obj, kind) => Put(s, key, obj, kind)
    case OpDelete(key) => Delete(s, key)
    case OpWatch(scope, labels, fields) => Watch(s, scope, labels, fields)
    case OpUnwatch(id) => Unwatch(s, id)
    case OpReceive(id) => Receive(s, id)
    case OpNextName(prefix) => NextName(s, prefix)
  }

  ghost function Run(s: Store, ops: seq<Op>): Store {
    if ops == [] then s else Step(Run(s, ops[..|ops| - 1]), ops[|ops| - 1])
  }

  /** A change of the stored objects, as the event that announces it. */
  datatype Mutation = Mutation(key: ObjectKey, event: Event)

  ghost function MutationOf(s: Store, op: Op): seq<Mutation> {
    match op
    case OpPut(key, obj, kind) =>
      if PutVerdict(s, key, obj, kind) == Stored then [Mutation(key, Event(kind, Kept(s, obj)))] else []
    case OpDelete(key) =>
      if key in s.objects then [Mutation(key, Event(Deleted, CloneObject(s.objects[key])))] else []
    case _ => []
  }

  ghost function Mutations(s: Store, ops: seq<Op>): seq<Mutation> {
    if ops == [] then []
    else
      var before := ops[..|ops| - 1];
      Mutations(s, before) + MutationOf(Run(s, before), ops[|ops| - 1])
  }
}
