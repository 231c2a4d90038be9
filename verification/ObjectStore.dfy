/** The mutable object store, method by method, against StoreModel. */
module ObjectStore {
  import opened Sums
  import opened Text
  import opened Utf8
  import opened Json
  import opened Order
  import opened Names
  import opened Selectors
  import opened StoreModel
  import opened Paging

  /** len(json.Marshal(j)); the members of an object may be visited in any order. */
  method Marshal(j: Json) returns (n: nat)
    ensures n == EncodedLength(j)
    decreases j, 1
  {
    match j {
      case Null => n := 4;
      case Bool(b) => n := if b then 4 else 5;
      case Num(number) => n := |number.text|;
      case Str(s) => n := StringLength(s);
      case Arr(items) =>
        n := 2;
        var i := |items|;
        while i > 0
          invariant 0 <= i <= |items| && n == 2 + ItemsLength(items[i..])
        {
          i := i - 1;
          var item := Marshal(items[i]);
          assert items[i..][1..] == items[i + 1..];
          n := n + item + (if i + 1 < |items| then 1 else 0);
        }
        assert items[0..] == items;
      case Obj(members) =>
        n := MarshalMembers(j);
      case Texts(texts) =>
        n := MarshalTexts(texts);
    }
  }

  /** A `map[string]string`, in whatever order it yields its entries. */
  method MarshalTexts(texts: map<string, string>) returns (n: nat)
    ensures n == EncodedLength(Texts(texts))
  {
    hide StringLength, Remaining, Total;
    ghost var w := TextLengths(texts);
    var pending := texts.Keys;
    var total: int := 0;
    RemainingEnds(w);
    while pending != {}
      invariant pending <= texts.Keys
      invariant total + Remaining(w, pending) == Total(w)
      decreases pending
    {
      var k :| k in pending;
      RemainingStep(w, pending, k);
      pending := pending - {k};
      total := total + StringLength(k) + 1 + StringLength(texts[k]);
    }
    TotalNonNegative(w);
    n := 2 + total + Commas(|texts|);
  }

  /** The members' texts, commas and braces, in whatever order the map yields them. */
  method MarshalMembers(j: Json) returns (n: nat)
    requires j.Obj?
    ensures n == EncodedLength(j)
    decreases j, 0
  {
    hide MemberLengths, StringLength, Remaining, EncodedLength;
    var members := j.members;
    ghost var w := MemberLengths(j);
    var pending := members.Keys;
    var total: int := 0;
    RemainingEnds(w);
    while pending != {}
      invariant pending <= members.Keys
      invariant total + Remaining(w, pending) == Total(w)
      decreases pending
    {
      var k :| k in pending;
      var value := Marshal(members[k]);
      MemberWeight(members, k);
      RemainingStep(w, pending, k);
      pending := pending - {k};
      total := total + StringLength(k) + 1 + value;
    }
    ObjectLengthParts(members);
    TotalNonNegative(w);
    n := 2 + total + Commas(|members|);
  }

  /** Whether an event about `obj` goes to this watcher. */
  method Wants(watcher: Watcher, key: ObjectKey, obj: Object) returns (wanted: bool)
    ensures wanted == Interested(watcher, key, obj)
  {
    if watcher.scope.group != key.group || watcher.scope.version != key.version || watcher.scope.resource != key.resource {
      return false;
    }
    if watcher.scope.namespace != "" && watcher.scope.namespace != key.namespace {
      return false;
    }
    wanted := ObjectMatches(obj, watcher.labels, watcher.fields);
  }

  /** What is left while the picked `keys` are still to be deleted. */
  ghost function Left(before: map<ObjectKey, Object>, picked: set<ObjectKey>, keys: set<ObjectKey>): map<ObjectKey, Object> {
    before - (picked - keys)
  }

  lemma LeftStep(before: map<ObjectKey, Object>, picked: set<ObjectKey>, keys: set<ObjectKey>, key: ObjectKey)
    requires key in keys && keys <= picked <= before.Keys
    ensures key in Left(before, picked, keys)
    ensures Left(before, picked, keys - {key}) == Left(before, picked, keys) - {key}
    ensures |Left(before, picked, keys - {key})| == |Left(before, picked, keys)| - 1
  {
    SizeWithout(Left(before, picked, keys), key);
    DropOneMore(before, picked, keys, key);
  }

  lemma ChosenStored(objects: map<ObjectKey, Object>, scope: Scope, labels: seq<Requirement>, fields: seq<Requirement>)
    ensures Chosen(objects, scope, labels, fields) <= objects.Keys
  {
    hide Picks;
  }

  lemma LeftEnds(before: map<ObjectKey, Object>, picked: set<ObjectKey>)
    ensures Left(before, picked, picked) == before && Left(before, picked, {}) == before - picked
  {
    assert picked - {} == picked;
  }

  class ObjectStore {
    var objects: map<ObjectKey, Object>
    var watchers: map<nat, Watcher>
    var channels: map<nat, Channel>
    var nextWatcher: nat
    var resourceRev: nat
    var storedBytes: int
    var generatedNames: nat

    function View(): Store
      reads this
    {
      Store(objects, watchers, channels, nextWatcher, resourceRev, storedBytes, generatedNames)
    }

    /** Every registered watcher holds an open channel; sending to or closing a closed one would panic. */
    ghost predicate Valid()
      reads this
    {
      ChannelsOpen(View())
    }

    constructor ()
      ensures View() == FRESH && Valid()
    {
      objects, watchers, channels := map[], map[], map[];
      nextWatcher, resourceRev, storedBytes, generatedNames := 0, 1000, 0, 0;
    }

    method Put(key: ObjectKey, obj: Object, eventType: EventType) returns (result: PutResult, stamped: Object)
      requires Valid()
      modifies this
      ensures Valid()
      ensures View() == StoreModel.Put(old(View()), key, obj, eventType)
      ensures result == PutVerdict(old(View()), key, obj, eventType)
      ensures stamped == Stamp(obj, old(resourceRev) + 1)
    {
      hide Publish, StoreModel.Put, NewTotal, Admission, CloneObject, Stamp;
      ghost var before := View();
      resourceRev := resourceRev + 1;
      stamped := Stamp(obj, resourceRev);
      var newTotal;
      result, newTotal := Admit(key, stamped, eventType);
      if result != Stored {
        resourceRev := resourceRev - 1;
        PutRefused(before, key, obj, eventType);
        return;
      }
      CloneObjectTwice(stamped);
      Insert(key, CloneObject(stamped), newTotal, eventType, before);
      PutStored(before, key, obj, eventType);
    }

    /** The accepting half of put: keep the copy, account for it, announce it. */
    method Insert(key: ObjectKey, copyOfObject: Object, newTotal: int, eventType: EventType, ghost before: Store)
      requires Valid() && View() == before.(revision := before.revision + 1)
      requires CloneObject(copyOfObject) == copyOfObject
      modifies this
      ensures Valid()
      ensures View() == Publish(Commit(before, key, copyOfObject, newTotal), key, Event(eventType, copyOfObject))
    {
      hide CloneObject, Publish;
      objects := objects[key := copyOfObject];
      storedBytes := newTotal;
      PublishLocked(key, eventType, copyOfObject);
    }

    /** The checks put makes on an encoded object, in their order. */
    method Admit(key: ObjectKey, stamped: Object, eventType: EventType) returns (result: PutResult, newTotal: int)
      ensures result == Admission(objects, storedBytes, key, stamped, eventType)
      ensures result == Stored ==> newTotal == NewTotal(objects, storedBytes, key, stamped)
    {
      newTotal := 0;
      var encoded := Marshal(Obj(stamped));
      if encoded > MAX_STORED_OBJECT_BYTES {
        return NoCapacity, newTotal;
      }
      var oldBytes := 0;
      if key in objects && eventType == Added {
        return AlreadyExists, newTotal;
      }
      if key in objects {
        oldBytes := Marshal(Obj(objects[key]));
      } else if |objects| >= MAX_STORED_OBJECTS {
        return NoCapacity, newTotal;
      }
      newTotal := storedBytes - oldBytes + encoded;
      result := if newTotal > MAX_STORED_BYTES then NoCapacity else Stored;
    }

    method Get(key: ObjectKey) returns (obj: Object, exists_: bool)
      ensures exists_ == (key in objects)
      ensures exists_ ==> obj == CloneObject(objects[key])
      ensures !exists_ ==> obj == map[]
    {
      exists_ := key in objects;
      obj := if exists_ then CloneObject(objects[key]) else map[];
    }

    method Delete(key: ObjectKey) returns (obj: Object, exists_: bool)
      requires Valid()
      modifies this
      ensures Valid()
      ensures View() == StoreModel.Delete(old(View()), key)
      ensures exists_ == (key in old(objects))
      ensures obj == if exists_ then CloneObject(old(objects[key])) else map[]
    {
      hide CloneObject, EncodedLength;
      exists_, obj := key in objects, map[];
      if exists_ {
        var stored := objects[key];
        objects := objects - {key};
        var encoded := Marshal(Obj(stored));
        storedBytes := storedBytes - encoded;
        resourceRev := resourceRev + 1;
        var copyOfObject := CloneObject(stored);
        CloneObjectTwice(stored);
        assert View() == Remove(old(View()), key, storedBytes);
        PublishLocked(key, Deleted, copyOfObject);
        obj := CloneObject(stored);
      }
    }

    /** Offers a copy of a copy to every interested watcher, in whatever order the map yields them. */
    method PublishLocked(key: ObjectKey, eventType: EventType, obj: Object)
      requires Valid() && CloneObject(obj) == obj
      modifies this`watchers, this`channels
      ensures Valid()
      ensures View() == Publish(old(View()), key, Event(eventType, obj))
    {
      hide CloneObject;
      ghost var before := View();
      ghost var e := Event(eventType, obj);
      ghost var ids := Reached(before, key, e);
      var pending := watchers.Keys;
      OfferNone(before, e);
      assert ids - pending == {};
      while pending != {}
        invariant pending <= before.watchers.Keys
        invariant View() == OfferAll(before, ids - pending, e)
        decreases pending
      {
        var id :| id in pending;
        var wanted := Wants(watchers[id], key, obj);
        assert wanted == (id in ids);
        if wanted {
          OfferKeepsOpen(before, ids - pending, e);
          OfferTo(id, Event(eventType, CloneObject(obj)));
          OfferOneMore(before, ids - pending, id, e);
          assert ids - pending + {id} == ids - (pending - {id});
        } else {
          assert ids - pending == ids - (pending - {id});
        }
        pending := pending - {id};
      }
      assert ids - pending == ids;
      OfferKeepsOpen(before, ids, e);
    }

    method OfferTo(id: nat, e: Event)
      requires Valid() && id in watchers
      modifies this`watchers, this`channels
      ensures View() == OfferAll(old(View()), {id}, e)
    {
      ghost var after := OfferAll(View(), {id}, e);
      assert !channels[id].closed;
      if |channels[id].buffer| < CHANNEL_CAPACITY {
        channels := channels[id := channels[id].(buffer := channels[id].buffer + [e])];
      } else {
        watchers := watchers - {id};
        channels := channels[id := channels[id].(closed := true)];
      }
      assert watchers == after.watchers;
      assert channels == after.channels;
    }

    method Watch(scope: Scope, labels: seq<Requirement>, fields: seq<Requirement>) returns (id: nat)
      requires Valid()
      modifies this
      ensures Valid()
      ensures View() == StoreModel.Watch(old(View()), scope, labels, fields)
      ensures id == old(nextWatcher) + 1
    {
      nextWatcher := nextWatcher + 1;
      id := nextWatcher;
      watchers := watchers[id := Watcher(id, scope, labels, fields)];
      channels := channels[id := Channel([], false)];
    }

    method Unwatch(id: nat)
      requires Valid()
      modifies this
      ensures Valid()
      ensures View() == StoreModel.Unwatch(old(View()), id)
    {
      if id in watchers {
        watchers := watchers - {id};
        assert !channels[id].closed;
        channels := channels[id := channels[id].(closed := true)];
      }
    }

    method NextName(prefix: string) returns (name: string, ok: bool)
      requires Valid()
      modifies this`generatedNames
      ensures Valid()
      ensures View() == StoreModel.NextName(old(View()), prefix)
      ensures ok == CanGenerate(old(View()), prefix)
      ensures ok ==> name == GeneratedName(old(View()), prefix)
    {
      if generatedNames == MAX_UINT64 {
        return "", false;
      }
      var next := generatedNames + 1;
      name := prefix + Padded(next, SUFFIX_WIDTH);
      ok := ValidObjectName(name);
      if ok {
        generatedNames := next;
      }
    }

    /** The keys whose objects a selector picks. */
    method PickKeys(scope: Scope, labels: seq<Requirement>, fields: seq<Requirement>) returns (keys: set<ObjectKey>)
      ensures keys == Chosen(objects, scope, labels, fields)
    {
      keys := {};
      var pending := objects.Keys;
      while pending != {}
        invariant pending <= objects.Keys
        invariant forall key :: key in keys <==> key in objects && key !in pending && Picks(scope, labels, fields, key, objects[key])
        decreases pending
      {
        var key :| key in pending;
        pending := pending - {key};
        var picked := ObjectMatches(objects[key], labels, fields);
        if InScope(scope, key) && picked {
          keys := keys + {key};
        }
      }
    }

    /** One deletion of deleteMatching, which looks only at whether the key was there. */
    method DeleteOne(key: ObjectKey) returns (gone: bool)
      requires Valid()
      modifies this
      ensures Valid()
      ensures objects == old(objects) - {key}
      ensures gone == (key in old(objects))
      ensures resourceRev == old(resourceRev) + (if gone then 1 else 0)
    {
      hide StoreModel.Delete;
      DeleteEffect(View(), key);
      var _, present := Delete(key);
      gone := present;
    }

    /** Deletes what a selector picks, one key at a time, each with its own revision and event. */
    method DeleteMatching(scope: Scope, labels: seq<Requirement>, fields: seq<Requirement>) returns (deleted: nat)
      requires Valid()
      modifies this
      ensures Valid()
      ensures objects == old(objects) - Chosen(old(objects), scope, labels, fields)
      ensures deleted == |old(objects)| - |objects|
      ensures resourceRev == old(resourceRev) + deleted
    {
      hide StoreModel.Delete, Publish, Picks, Chosen, Left;
      ghost var before := objects;
      var keys := PickKeys(scope, labels, fields);
      deleted := 0;
      ghost var picked := keys;
      LeftEnds(before, picked);
      ChosenStored(before, scope, labels, fields);
      while keys != {}
        invariant Valid()
        invariant keys <= picked
        invariant objects == Left(before, picked, keys)
        invariant |before| == |objects| + deleted
        invariant resourceRev == old(resourceRev) + deleted
        decreases keys
      {
        var key :| key in keys;
        LeftStep(before, picked, keys, key);
        var gone := DeleteOne(key);
        if gone {
          deleted := deleted + 1;
        }
        keys := keys - {key};
      }
    }

    /** Every matching object's place, in the order the map yields them. */
    method Candidates(scope: Scope, labels: seq<Requirement>, fields: seq<Requirement>) returns (candidates: seq<Place>)
      ensures forall i, j :: 0 <= i < j < |candidates| ==> candidates[i] != candidates[j]
      ensures forall p :: p in candidates <==> MatchesAt(View(), scope, labels, fields, p)
    {
      candidates := [];
      var pending := objects.Keys;
      while pending != {}
        invariant pending <= objects.Keys
        invariant forall i, j :: 0 <= i < j < |candidates| ==> candidates[i] != candidates[j]
        invariant forall p :: p in candidates <==> KeyAt(scope, p) !in pending && MatchesAt(View(), scope, labels, fields, p)
        decreases pending
      {
        var key :| key in pending;
        pending := pending - {key};
        var picked := ObjectMatches(objects[key], labels, fields);
        if InScope(scope, key) && picked {
          assert key == KeyAt(scope, PlaceOf(key));
          candidates := candidates + [PlaceOf(key)];
        }
      }
    }

    /** One page of the matching objects in (namespace, name) order. */
    method ListPage(scope: Scope, labels: seq<Requirement>, fields: seq<Requirement>, offset: int, limit: int)
      returns (ok: bool, items: seq<Object>, total: nat, next: nat)
      ensures ok == (0 <= offset <= |Matching(View(), scope, labels, fields)|)
      ensures total == |Matching(View(), scope, labels, fields)|
      ensures ok ==> next == PageEnd(View(), scope, labels, fields, offset, limit)
      ensures ok ==> items == Items(View(), scope, Matching(View(), scope, labels, fields), offset, next)
    {
      var candidates := Candidates(scope, labels, fields);
      MatchingElements(View(), scope, labels, fields, candidates);
      var ranked := Sort(candidates);
      total := |ranked|;
      items, next := [], 0;
      if offset < 0 || offset > total {
        return false, items, total, next;
      }
      ok := true;
      items, next := Collect(scope, ranked, offset, if limit <= 0 || limit > MAX_LIST_PAGE_ITEMS then MAX_LIST_PAGE_ITEMS else limit);
    }

    /** The page loop: items are added until the page is full by count or by bytes. */
    method Collect(scope: Scope, ranked: seq<Place>, offset: nat, limit: nat) returns (items: seq<Object>, index: nat)
      requires AllStored(View(), scope, ranked) && offset <= |ranked|
      ensures index == Extend(Sizes(View(), scope, ranked), offset, 0, 0, limit)
      ensures offset <= index <= |ranked| && items == Items(View(), scope, ranked, offset, index)
    {
      hide Extend, Sizes, Items, CloneObject, EncodedLength;
      ghost var sizes := Sizes(View(), scope, ranked);
      items, index := [], offset;
      var usedBytes: nat := 0;
      while index < |ranked| && |items| < limit
        invariant offset <= index <= |ranked| && |items| == index - offset
        invariant items == Items(View(), scope, ranked, offset, index)
        invariant Extend(sizes, offset, 0, 0, limit) == Extend(sizes, index, |items|, usedBytes, limit)
      {
        var stored := objects[KeyAt(scope, ranked[index])];
        var encoded := Marshal(Obj(stored));
        assert encoded == sizes[index];
        if usedBytes + encoded > MAX_LIST_PAGE_BYTES && |items| > 0 {
          break;
        }
        ExtendStep(sizes, index, |items|, usedBytes, limit);
        usedBytes := usedBytes + encoded;
        items := items + [CloneObject(stored)];
        ItemsSnoc(View(), scope, ranked, offset, index);
        index := index + 1;
      }
      ExtendStop(sizes, index, |items|, usedBytes, limit);
    }
  }
}
