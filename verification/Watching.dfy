/** What a watcher sees: its event history, and the state it rebuilds from a snapshot and that history. */
module Watching {
  import opened Text
  import opened Utf8
  import opened Json
  import opened Order
  import opened Selectors
  import opened StoreModel
  import opened Paging
  import opened StoreRuns

  // ----- the history of one watcher -----

  /** The mutations a watcher asked for, as events. */
  function Filtered(w: Watcher, mutations: seq<Mutation>): seq<Event> {
    if mutations == [] then []
    else
      var m := mutations[|mutations| - 1];
      Filtered(w, mutations[..|mutations| - 1]) + (if Interested(w, m.key, m.event.obj) then [m.event] else [])
  }

  lemma FilteredStep(w: Watcher, before: seq<Mutation>, last: seq<Mutation>)
    requires |last| <= 1
    ensures Filtered(w, before + last) == Filtered(w, before) + Filtered(w, last)
  {
    hide Interested;
    if last == [] {
      assert before + last == before;
    } else {
      assert (before + last)[..|before|] == before;
      assert last[..0] == [];
      assert Filtered(w, []) == [];
    }
  }

  function Delivered(s: Store, op: Op, id: nat): seq<Event> {
    if op == OpReceive(id) && id in s.channels && s.channels[id].buffer != [] then [s.channels[id].buffer[0]] else []
  }

  /** What the consumer of channel `id` has taken out of it during the run. */
  ghost function Received(s: Store, ops: seq<Op>, id: nat): seq<Event> {
    if ops == [] then []
    else
      var before := ops[..|ops| - 1];
      Received(s, before, id) + Delivered(Run(s, before), ops[|ops| - 1], id)
  }

  ghost predicate Registered(s: Store, w: Watcher) {
    w.id in s.watchers && s.watchers[w.id] == w
  }

  /** The event, if the watcher is still registered in `t` and wants it. */
  function Sent(t: Store, w: Watcher, key: ObjectKey, e: Event): seq<Event> {
    if w.id in t.watchers && Interested(w, key, e.obj) then [e] else []
  }

  lemma PublishChannel(s: Store, key: ObjectKey, e: Event, w: Watcher)
    requires ChannelsSound(s) && w.id in s.channels && (w.id in s.watchers ==> Registered(s, w))
    ensures w.id in Publish(s, key, e).channels
    ensures w.id in Publish(s, key, e).watchers ==> Registered(Publish(s, key, e), w) && Registered(s, w)
    ensures Publish(s, key, e).channels[w.id].buffer == s.channels[w.id].buffer + Sent(Publish(s, key, e), w, key, e)
  {
    hide Interested;
  }

  /** What a watcher asks for, word by word: its resource, its namespace (empty for all), its selectors. */
  lemma AskedFor(w: Watcher, key: ObjectKey, obj: Object)
    ensures Interested(w, key, obj) <==>
      && key.group == w.scope.group && key.version == w.scope.version && key.resource == w.scope.resource
      && (key.namespace == w.scope.namespace || w.scope.namespace == "")
      && Matches(obj, w.labels, w.fields)
  {
    hide Matches;
  }

  lemma OfferedExactly(s: Store, key: ObjectKey, e: Event, w: Watcher)
    requires ChannelsSound(s) && Registered(s, w)
    ensures w.id !in Publish(s, key, e).watchers <==> Interested(w, key, e.obj) && |s.channels[w.id].buffer| == 4
  {
    hide Interested;
  }

  /**
   * A watcher is dropped by nothing but its own departure and by an event it asked for that finds
   * four others waiting; so one that takes its events in time receives them all.
   */
  lemma DroppedExactly(s: Store, op: Op, w: Watcher)
    requires ChannelsSound(s) && Registered(s, w)
    ensures w.id !in Step(s, op).watchers <==>
      op == OpUnwatch(w.id) || (Filtered(w, MutationOf(s, op)) != [] && |s.channels[w.id].buffer| == 4)
  {
    hide Publish, Kept, ChargedTotal, PutVerdict, Interested, Matches, StoredLength, CloneObject, ChannelsSound;
    var m := MutationOf(s, op);
    assert m == [] || m[..0] == [];
    assert Filtered(w, []) == [];
    match op
    case OpPut(key, obj, kind) =>
      if PutVerdict(s, key, obj, kind) == Stored {
        SameWatchers(s, Commit(s, key, Kept(s, obj), ChargedTotal(s, key, obj)), w);
        OfferedExactly(Commit(s, key, Kept(s, obj), ChargedTotal(s, key, obj)), key, Event(kind, Kept(s, obj)), w);
      }
    case OpDelete(key) =>
      if key in s.objects {
        SameWatchers(s, Remove(s, key, s.bytes - StoredLength(s.objects, key)), w);
        OfferedExactly(Remove(s, key, s.bytes - StoredLength(s.objects, key)), key, Event(Deleted, CloneObject(s.objects[key])), w);
      }
    case OpWatch(_, _, _) => IdentifierUsed(s, w);
    case _ =>
  }

  lemma SameWatchers(s: Store, t: Store, w: Watcher)
    requires ChannelsSound(s) && Registered(s, w)
    requires t.watchers == s.watchers && t.channels == s.channels && t.nextWatcher == s.nextWatcher
    ensures ChannelsSound(t) && Registered(t, w)
  {
  }

  lemma IdentifierUsed(s: Store, w: Watcher)
    requires ChannelsSound(s) && Registered(s, w)
    ensures w.id <= s.nextWatcher
  {
  }

  /** One step, seen from one channel: what was buffered and what is new comes out or stays, in order. */
  ghost predicate Flows(s: Store, op: Op, t: Store, w: Watcher) {
    && w.id in s.channels && w.id in t.channels
    && (w.id in t.watchers ==> Registered(t, w) && Registered(s, w))
    && Delivered(s, op, w.id) + t.channels[w.id].buffer
         == s.channels[w.id].buffer + (if w.id in t.watchers then Filtered(w, MutationOf(s, op)) else [])
  }

  lemma PutFlows(s: Store, key: ObjectKey, obj: Object, kind: EventType, w: Watcher)
    requires ChannelsSound(s) && w.id in s.channels && (w.id in s.watchers ==> Registered(s, w))
    ensures Flows(s, OpPut(key, obj, kind), Put(s, key, obj, kind), w)
  {
    hide Publish, Kept, ChargedTotal, PutVerdict, Interested, Matches;
    var m := MutationOf(s, OpPut(key, obj, kind));
    if PutVerdict(s, key, obj, kind) == Stored {
      PublishChannel(Commit(s, key, Kept(s, obj), ChargedTotal(s, key, obj)), key, Event(kind, Kept(s, obj)), w);
    }
    assert m == [] || m[..0] == [];
    assert Filtered(w, []) == [];
  }

  lemma DeleteFlows(s: Store, key: ObjectKey, w: Watcher)
    requires ChannelsSound(s) && w.id in s.channels && (w.id in s.watchers ==> Registered(s, w))
    ensures Flows(s, OpDelete(key), Delete(s, key), w)
  {
    hide Publish, StoredLength, CloneObject, Interested, Matches;
    var m := MutationOf(s, OpDelete(key));
    if key in s.objects {
      PublishChannel(Remove(s, key, s.bytes - StoredLength(s.objects, key)), key, Event(Deleted, CloneObject(s.objects[key])), w);
    }
    assert m == [] || m[..0] == [];
    assert Filtered(w, []) == [];
  }

  lemma StepFlows(s: Store, op: Op, w: Watcher)
    requires ChannelsSound(s) && w.id in s.channels && (w.id in s.watchers ==> Registered(s, w))
    ensures Flows(s, op, Step(s, op), w)
  {
    hide Put, Delete, Interested, Kept, CloneObject, PutVerdict;
    match op
    case OpPut(key, obj, kind) => PutFlows(s, key, obj, kind, w);
    case OpDelete(key) => DeleteFlows(s, key, w);
    case _ =>
  }

  /**
   * Over every run, what a watcher received and what still waits in its channel are exactly the
   * mutations it asked for since it registered; once it is closed they are a prefix of them.
   */
  lemma {:induction false} WatchHistory(s: Store, w: Watcher, ops: seq<Op>)
    requires ChannelsSound(s) && Registered(s, w) && s.channels[w.id] == Channel([], false)
    ensures w.id in Run(s, ops).channels && ChannelsSound(Run(s, ops))
    ensures w.id in Run(s, ops).watchers ==> Registered(Run(s, ops), w)
    ensures Received(s, ops, w.id) + Run(s, ops).channels[w.id].buffer <= Filtered(w, Mutations(s, ops))
    ensures w.id in Run(s, ops).watchers ==>
      Received(s, ops, w.id) + Run(s, ops).channels[w.id].buffer == Filtered(w, Mutations(s, ops))
  {
    RunSound(s, ops);
    if ops != [] {
      var before, op := ops[..|ops| - 1], ops[|ops| - 1];
      WatchHistory(s, w, before);
      var t := Run(s, before);
      StepFlows(t, op, w);
      StepRevision(t, op);
      FilteredStep(w, Mutations(s, before), MutationOf(t, op));
      AppendHistory(Received(s, before, w.id), t.channels[w.id].buffer, Delivered(t, op, w.id),
                    Step(t, op).channels[w.id].buffer, Filtered(w, Mutations(s, before)), Filtered(w, MutationOf(t, op)),
                    w.id in t.watchers, w.id in Step(t, op).watchers);
    }
    hide Step, Delivered, Filtered, Flows, MutationOf, ChannelsSound, ChannelsOpen;
  }

  lemma AppendHistory<T(!new)>(received: seq<T>, buffered: seq<T>, delivered: seq<T>, left: seq<T>,
      older: seq<T>, newer: seq<T>, was: bool, still: bool)
    requires still ==> was
    requires received + buffered <= older && (was ==> received + buffered == older)
    requires delivered + left == buffered + (if still then newer else [])
    ensures (received + delivered) + left <= older + newer
    ensures still ==> (received + delivered) + left == older + newer
  {
    assert (received + delivered) + left == received + (delivered + left);
    assert received + (buffered + newer) == (received + buffered) + newer;
    assert received + (buffered + []) == received + buffered;
  }

  // ----- rebuilding the store from events -----

  /** A client knows an object by the name and namespace in its metadata. */
  function ClientPlace(obj: Object): Place {
    Place(TextOf(Metadata(obj), "namespace").0, TextOf(Metadata(obj), "name").0)
  }

  predicate Addressed(key: ObjectKey, obj: Object) {
    ClientPlace(obj) == PlaceOf(key)
  }

  function Apply(state: map<Place, Object>, e: Event): map<Place, Object> {
    if e.kind == Deleted then state - {ClientPlace(e.obj)} else state[ClientPlace(e.obj) := e.obj]
  }

  function Replay(state: map<Place, Object>, events: seq<Event>): map<Place, Object> {
    if events == [] then state else Apply(Replay(state, events[..|events| - 1]), events[|events| - 1])
  }

  lemma {:induction false} ReplayConcat(state: map<Place, Object>, a: seq<Event>, b: seq<Event>)
    ensures Replay(state, a + b) == Replay(Replay(state, a), b)
  {
    if b == [] {
      assert a + b == a;
    } else {
      assert (a + b)[..|a + b| - 1] == a + b[..|b| - 1];
      ReplayConcat(state, a, b[..|b| - 1]);
    }
  }

  /** Stored objects are copies, and say in their metadata which key they are under. */
  ghost predicate Proper(s: Store) {
    forall k :: k in s.objects ==> Addressed(k, s.objects[k]) && CloneObject(s.objects[k]) == s.objects[k]
  }

  /** Where a client will find an object that is put; the revision in the stamp does not matter. */
  function KeptPlace(obj: Object): Place {
    ClientPlace(CloneObject(Stamp(obj, 0)))
  }

  predicate NamesItself(key: ObjectKey, obj: Object) {
    KeptPlace(obj) == PlaceOf(key)
  }

  /** An ADDED or MODIFIED object that carries its own name and namespace; what the API writes unless a request strays. */
  predicate ProperOp(op: Op) {
    op.OpPut? ==> op.kind != Deleted && NamesItself(op.key, op.obj)
  }

  predicate ProperOps(ops: seq<Op>) {
    forall i :: 0 <= i < |ops| ==> ProperOp(ops[i])
  }

  lemma StampedPlace(obj: Object, revision: nat)
    ensures ClientPlace(CloneObject(Stamp(obj, revision)))
      == if ReadsBack(obj) then Place(Coerce(TextOf(Metadata(obj), "namespace").0), Coerce(TextOf(Metadata(obj), "name").0)) else Place("", "")
  {
    hide Reread, Readable, Decimal, Coerce;
    var stamped := Metadata(obj)["resourceVersion" := Str(Decimal(revision))];
    StampReads(obj, revision);
    CloneMapAt(Stamp(obj, revision), "metadata");
    assert Metadata(Reread(Stamp(obj, revision))) == Reread(stamped);
    CloneTextAt(stamped, "namespace");
    CloneTextAt(stamped, "name");
  }

  lemma KeptProper(s: Store, obj: Object)
    ensures ClientPlace(Kept(s, obj)) == KeptPlace(obj)
    ensures CloneObject(Kept(s, obj)) == Kept(s, obj)
  {
    hide CloneObject, Stamp, ClientPlace, Coerce, ReadsBack;
    StampedPlace(obj, s.revision + 1);
    StampedPlace(obj, 0);
    CloneObjectTwice(Stamp(obj, s.revision + 1));
  }

  lemma StepProper(s: Store, op: Op)
    requires Proper(s) && ProperOp(op)
    ensures Proper(Step(s, op))
  {
    match op
    case OpPut(key, obj, kind) =>
      if PutVerdict(s, key, obj, kind) == Stored {
        PutEffect(s, key, obj, kind);
        KeptProper(s, obj);
        hide Put, Kept, Metadata, CloneObject;
      }
    case OpDelete(key) =>
      DeleteEffect(s, key);
      hide Delete;
    case _ =>
  }

  lemma {:induction false} RunProper(s: Store, ops: seq<Op>)
    requires Proper(s) && ProperOps(ops)
    ensures Proper(Run(s, ops))
  {
    if ops != [] {
      RunProper(s, ops[..|ops| - 1]);
      StepProper(Run(s, ops[..|ops| - 1]), ops[|ops| - 1]);
    }
  }

  datatype Entry = Absent | Present(obj: Object)

  function Lookup(state: map<Place, Object>, p: Place): Entry {
    if p in state then Present(state[p]) else Absent
  }

  /** What the store holds at place `p` of a scope. */
  function Slot(s: Store, scope: Scope, p: Place): Entry {
    if InScope(scope, KeyAt(scope, p)) && KeyAt(scope, p) in s.objects then Present(s.objects[KeyAt(scope, p)]) else Absent
  }

  ghost function Contents(s: Store, scope: Scope): map<Place, Object> {
    map p | p in Places(s) && Slot(s, scope, p).Present? :: Slot(s, scope, p).obj
  }

  lemma ContentsAt(s: Store, scope: Scope, p: Place)
    ensures Lookup(Contents(s, scope), p) == Slot(s, scope, p)
  {
    assert PlaceOf(KeyAt(scope, p)) == p;
  }

  predicate Touches(events: seq<Event>, p: Place) {
    exists i :: 0 <= i < |events| && ClientPlace(events[i].obj) == p
  }

  /** What at most one event makes of place `p`. */
  function Changed(before: Entry, events: seq<Event>, p: Place): Entry {
    if events == [] || p != ClientPlace(events[0].obj) then before
    else if events[0].kind == Deleted then Absent else Present(events[0].obj)
  }

  lemma SlotAt(s: Store, scope: Scope, key: ObjectKey, p: Place)
    ensures InScope(scope, key) && p == PlaceOf(key) ==> KeyAt(scope, p) == key
    ensures InScope(scope, KeyAt(scope, p)) && KeyAt(scope, p) == key ==> InScope(scope, key) && p == PlaceOf(key)
  {
  }

  lemma PutSlot(s: Store, op: Op, w: Watcher, p: Place)
    requires op.OpPut? && ProperOp(op) && PutVerdict(s, op.key, op.obj, op.kind) == Stored
    ensures Slot(Put(s, op.key, op.obj, op.kind), w.scope, p)
      == Changed(Slot(s, w.scope, p), if InScope(w.scope, op.key) then [Event(op.kind, Kept(s, op.obj))] else [], p)
  {
    PutEffect(s, op.key, op.obj, op.kind);
    KeptProper(s, op.obj);
    SlotAt(s, w.scope, op.key, p);
    hide Put, Kept, PutVerdict, ClientPlace;
  }

  lemma DeleteSlot(s: Store, key: ObjectKey, w: Watcher, p: Place)
    requires Proper(s) && key in s.objects
    ensures Slot(Delete(s, key), w.scope, p)
      == Changed(Slot(s, w.scope, p), if InScope(w.scope, key) then [Event(Deleted, CloneObject(s.objects[key]))] else [], p)
  {
    DeleteEffect(s, key);
    SlotAt(s, w.scope, key, p);
    hide Delete, CloneObject, ClientPlace;
  }

  lemma FilteredOne(w: Watcher, m: seq<Mutation>)
    requires |m| <= 1
    ensures Filtered(w, m) == if m != [] && Interested(w, m[0].key, m[0].event.obj) then [m[0].event] else []
  {
    hide Interested;
    if m != [] {
      assert m[..0] == [] && Filtered(w, []) == [];
    }
  }

  // ----- what a watcher's selectors select -----

  /** What the store holds at place `p`, if the watcher's selectors select it. */
  function Visible(s: Store, w: Watcher, p: Place): Entry {
    var slot := Slot(s, w.scope, p);
    if slot.Present? && Matches(slot.obj, w.labels, w.fields) then slot else Absent
  }

  ghost function Selected(s: Store, w: Watcher): map<Place, Object> {
    map p | p in Places(s) && Visible(s, w, p).Present? :: Visible(s, w, p).obj
  }

  lemma SelectedAt(s: Store, w: Watcher, p: Place)
    ensures Lookup(Selected(s, w), p) == Visible(s, w, p)
  {
    hide Matches;
    assert PlaceOf(KeyAt(w.scope, p)) == p;
  }

  /** An accepted put that replaces a selected object by one that is not: no event says so. */
  ghost predicate Leaves(s: Store, w: Watcher, op: Op) {
    && Accepted(s, op) && op.key in s.objects
    && Interested(w, op.key, s.objects[op.key]) && !Interested(w, op.key, Kept(s, op.obj))
  }

  ghost predicate NoneLeaves(s: Store, w: Watcher, ops: seq<Op>) {
    ops != [] ==> NoneLeaves(s, w, ops[..|ops| - 1]) && !Leaves(Run(s, ops[..|ops| - 1]), w, ops[|ops| - 1])
  }

  /** Without selectors everything in the scope is selected, and nothing can leave. */
  lemma {:induction false} UnfilteredSelectsAll(s: Store, w: Watcher, ops: seq<Op>)
    requires w.labels == [] && w.fields == []
    ensures Selected(s, w) == Contents(s, w.scope) && NoneLeaves(s, w, ops)
  {
    forall p ensures Lookup(Selected(s, w), p) == Lookup(Contents(s, w.scope), p) {
      SelectedAt(s, w, p);
      ContentsAt(s, w.scope, p);
    }
    SameLookup(Selected(s, w), Contents(s, w.scope));
    hide Kept, PutVerdict, Selected, Contents;
    if ops != [] {
      UnfilteredSelectsAll(s, w, ops[..|ops| - 1]);
    }
  }

  lemma PutVisible(s: Store, op: Op, w: Watcher, p: Place)
    requires Proper(s) && ProperOp(op) && Accepted(s, op)
    ensures Visible(Put(s, op.key, op.obj, op.kind), w, p)
      == if Leaves(s, w, op) && p == PlaceOf(op.key) then Absent
         else Changed(Visible(s, w, p), if Interested(w, op.key, Kept(s, op.obj)) then [Event(op.kind, Kept(s, op.obj))] else [], p)
  {
    PutSlot(s, op, w, p);
    KeptProper(s, op.obj);
    SlotAt(s, w.scope, op.key, p);
    hide Put, Kept, PutVerdict, ClientPlace, Matches, Proper;
  }

  lemma DeleteVisible(s: Store, key: ObjectKey, w: Watcher, p: Place)
    requires Proper(s) && key in s.objects
    ensures Visible(Delete(s, key), w, p)
      == Changed(Visible(s, w, p), if Interested(w, key, CloneObject(s.objects[key])) then [Event(Deleted, CloneObject(s.objects[key]))] else [], p)
  {
    DeleteSlot(s, key, w, p);
    SlotAt(s, w.scope, key, p);
    hide Delete, CloneObject, ClientPlace, Matches;
  }

  /**
   * One step changes what is selected at place `p` just as its events (at most one) say, except
   * that an object that leaves the selection goes unannounced.
   */
  lemma StepVisible(s: Store, op: Op, w: Watcher, p: Place)
    requires Proper(s) && ProperOp(op)
    ensures |MutationOf(s, op)| <= 1
    ensures |Filtered(w, MutationOf(s, op))| <= 1
    ensures Visible(Step(s, op), w, p)
      == if Leaves(s, w, op) && p == PlaceOf(op.key) then Absent else Changed(Visible(s, w, p), Filtered(w, MutationOf(s, op)), p)
    ensures Leaves(s, w, op) ==> Filtered(w, MutationOf(s, op)) == [] && Visible(s, w, PlaceOf(op.key)).Present?
  {
    hide Put, Delete, Kept, CloneObject, PutVerdict, ClientPlace, Proper, ProperOp, Filtered, Matches;
    StepRevision(s, op);
    FilteredOne(w, MutationOf(s, op));
    if op.OpPut? && Accepted(s, op) {
      PutVisible(s, op, w, p);
      SlotAt(s, w.scope, op.key, PlaceOf(op.key));
    } else if op.OpDelete? && op.key in s.objects {
      DeleteVisible(s, op.key, w, p);
    }
  }

  lemma {:induction false} Track(s: Store, ops: seq<Op>, w: Watcher, state: map<Place, Object>, p: Place)
    requires Proper(s) && ProperOps(ops) && NoneLeaves(s, w, ops)
    ensures var events := Filtered(w, Mutations(s, ops));
      && Lookup(Replay(state, events), p) == (if Touches(events, p) then Visible(Run(s, ops), w, p) else Lookup(state, p))
      && (!Touches(events, p) ==> Visible(Run(s, ops), w, p) == Visible(s, w, p))
  {
    hide Visible, Step, Proper, ProperOp, ClientPlace, MutationOf, Touches, Apply, Lookup, ChannelsSound, Leaves;
    if ops != [] {
      var before, op := ops[..|ops| - 1], ops[|ops| - 1];
      Track(s, before, w, state, p);
      RunProper(s, before);
      var t := Run(s, before);
      StepVisible(t, op, w, p);
      FilteredStep(w, Mutations(s, before), MutationOf(t, op));
      ReplayOneMore(state, Filtered(w, Mutations(s, before)), Filtered(w, MutationOf(t, op)), p);
      StepRevision(t, op);
    } else {
      NoEvents(w, p);
    }
  }

  lemma NoEvents(w: Watcher, p: Place)
    ensures Filtered(w, []) == [] && !Touches([], p)
  {
  }

  lemma ReplayOneMore(state: map<Place, Object>, older: seq<Event>, newer: seq<Event>, p: Place)
    requires |newer| <= 1
    ensures Touches(older + newer, p) <==> Touches(older, p) || (newer != [] && ClientPlace(newer[0].obj) == p)
    ensures Lookup(Replay(state, older + newer), p) == Changed(Lookup(Replay(state, older), p), newer, p)
  {
    hide ClientPlace;
    if newer == [] {
      assert older + newer == older;
    } else {
      var all := older + newer;
      assert all[..|older|] == older && all[|older|] == newer[0];
      assert forall i :: 0 <= i < |older| ==> all[i] == older[i];
    }
  }

  lemma {:induction false} NoneLeft(s: Store, w: Watcher, first: seq<Op>, second: seq<Op>)
    requires NoneLeaves(s, w, first + second)
    ensures NoneLeaves(s, w, first)
  {
    hide Leaves;
    if second == [] {
      assert first + second == first;
    } else {
      assert (first + second)[..|first + second| - 1] == first + second[..|second| - 1];
      NoneLeft(s, w, first, second[..|second| - 1]);
    }
  }

  /**
   * While no object leaves the selection, replaying every event since registration on any later
   * snapshot gives what is selected at present: events older than the snapshot do no harm, and
   * there is no gap between list and watch.
   */
  lemma ReplayFromSnapshot(s: Store, w: Watcher, first: seq<Op>, second: seq<Op>)
    requires Proper(s) && ProperOps(first) && ProperOps(second) && NoneLeaves(s, w, first + second)
    ensures Replay(Selected(Run(s, first), w), Filtered(w, Mutations(s, first + second))) == Selected(Run(s, first + second), w)
  {
    hide Leaves;
    var snapshot := Selected(Run(s, first), w);
    var events := Filtered(w, Mutations(s, first + second));
    var rebuilt, present := Replay(snapshot, events), Selected(Run(s, first + second), w);
    FilteredPrefix(s, w, first, second);
    NoneLeft(s, w, first, second);
    hide Selected, Visible, Matches;
    forall p ensures Lookup(rebuilt, p) == Lookup(present, p) {
      Track(s, first + second, w, snapshot, p);
      Track(s, first, w, snapshot, p);
      SelectedAt(Run(s, first), w, p);
      SelectedAt(Run(s, first + second), w, p);
    }
    SameLookup(rebuilt, present);
  }

  ghost predicate ReplaysAt(s: Store, w: Watcher, ops: seq<Op>, n: nat)
    requires n <= |ops|
  {
    Replay(Selected(s, w), Filtered(w, Mutations(s, ops[..n]))) == Selected(Run(s, ops[..n]), w)
  }

  lemma OnlyPutsLeave(s: Store, w: Watcher, op: Op)
    ensures Leaves(s, w, op) ==> op.OpPut?
  {
  }

  lemma SamePrefix(s: Store, w: Watcher, ops: seq<Op>, n: nat)
    requires n < |ops|
    ensures ReplaysAt(s, w, ops, n) <==> ReplaysAt(s, w, ops[..|ops| - 1], n)
  {
    hide Replay, Filtered, Selected, Mutations, Run;
    assert ops[..n] == ops[..|ops| - 1][..n];
  }

  lemma LastReplays(s: Store, w: Watcher, ops: seq<Op>)
    requires Proper(s) && ProperOps(ops) && ops != []
    requires ReplaysAt(s, w, ops, |ops| - 1)
    ensures ReplaysAt(s, w, ops, |ops|) <==> !Leaves(Run(s, ops[..|ops| - 1]), w, ops[|ops| - 1])
  {
    hide Leaves, Visible, Selected, Matches, Filtered, MutationOf, Step, ClientPlace, Proper, ProperOp;
    var before, op := ops[..|ops| - 1], ops[|ops| - 1];
    assert ops[..|ops|] == ops;
    RunProper(s, before);
    var t := Run(s, before);
    var older, newer := Filtered(w, Mutations(s, before)), Filtered(w, MutationOf(t, op));
    var rebuilt, present := Replay(Selected(s, w), older + newer), Selected(Run(s, ops), w);
    StepRevision(t, op);
    FilteredStep(w, Mutations(s, before), MutationOf(t, op));
    OnlyPutsLeave(t, w, op);
    forall p
      ensures Lookup(rebuilt, p) == Changed(Visible(t, w, p), newer, p)
      ensures Lookup(present, p) == if Leaves(t, w, op) && p == PlaceOf(op.key) then Absent else Changed(Visible(t, w, p), newer, p)
    {
      StepVisible(t, op, w, p);
      ReplayOneMore(Selected(s, w), older, newer, p);
      SelectedAt(t, w, p);
      SelectedAt(Run(s, ops), w, p);
    }
    if Leaves(t, w, op) {
      StepVisible(t, op, w, PlaceOf(op.key));
      assert Lookup(rebuilt, PlaceOf(op.key)) != Lookup(present, PlaceOf(op.key));
    } else {
      SameLookup(rebuilt, present);
    }
  }

  /** The condition is exact: the replay is right throughout a run precisely when no object leaves the selection. */
  lemma {:induction false} ReplayExactly(s: Store, w: Watcher, ops: seq<Op>)
    requires Proper(s) && ProperOps(ops)
    ensures NoneLeaves(s, w, ops) <==> forall n :: 0 <= n <= |ops| ==> ReplaysAt(s, w, ops, n)
  {
    hide Leaves, ReplaysAt, Proper, ProperOp, Run;
    if ops == [] {
      NothingReplayed(s, w, ops);
    } else {
      var before := ops[..|ops| - 1];
      ReplayExactly(s, w, before);
      forall n | 0 <= n <= |before| ensures ReplaysAt(s, w, ops, n) <==> ReplaysAt(s, w, before, n) {
        SamePrefix(s, w, ops, n);
      }
      if ReplaysAt(s, w, ops, |before|) {
        LastReplays(s, w, ops);
      }
    }
  }

  lemma NothingReplayed(s: Store, w: Watcher, ops: seq<Op>)
    requires ops == []
    ensures ReplaysAt(s, w, ops, 0)
  {
    hide Selected;
    assert ops[..0] == [];
  }

  lemma KeptIsNew(s: Store, key: ObjectKey, obj: Object)
    requires VersionsDistinct(s.objects, s.revision) && key in s.objects && ReadsBack(obj)
    ensures s.objects[key] != Kept(s, obj)
  {
    hide VersionText, Stamp, CloneObject, ReadsBack;
    StampVersion(obj, s.revision + 1);
    if s.objects[key] != map[] {
      var r: nat :| r <= s.revision && VersionText(s.objects[key]) == (Decimal(r), true);
      if VersionText(s.objects[key]) == VersionText(Kept(s, obj)) {
        DecimalInjective(r, s.revision + 1);
      }
    }
  }

  /** The put stores an empty object where there was one, and so does the place that a client finds it at. */
  ghost predicate ChangesNothing(s: Store, scope: Scope, key: ObjectKey, obj: Object) {
    !ReadsBack(obj) && Slot(s, scope, PlaceOf(key)) == Present(map[]) && Slot(s, scope, Place("", "")) == Present(map[])
  }

  /**
   * The condition is needed. In any state a run can reach, an accepted put is replayed to what
   * the store then holds exactly when the object's metadata, once copied, names the key it is
   * stored under (or there is nothing to replay, with empty objects at both places).
   */
  lemma ReplayNeedsAddress(s: Store, w: Watcher, key: ObjectKey, obj: Object, kind: EventType)
    requires WithinLimits(s) && kind != Deleted && PutVerdict(s, key, obj, kind) == Stored
    requires InScope(w.scope, key) && w.labels == [] && w.fields == []
    ensures NamesItself(key, obj) || ChangesNothing(s, w.scope, key, obj) <==>
      Replay(Contents(s, w.scope), Filtered(w, MutationOf(s, OpPut(key, obj, kind)))) == Contents(Put(s, key, obj, kind), w.scope)
  {
    hide Put, Kept, PutVerdict, ClientPlace, Contents, Slot, Filtered, InScope, VersionsDistinct, ReadsBack;
    var t, kept, here := Put(s, key, obj, kind), Kept(s, obj), PlaceOf(key);
    var op := OpPut(key, obj, kind);
    FilteredOne(w, MutationOf(s, op));
    KeptProper(s, obj);
    var rebuilt := Replay(Contents(s, w.scope), [Event(kind, kept)]);
    ReplayOne(Contents(s, w.scope), Event(kind, kept));
    if NamesItself(key, obj) {
      forall p ensures Lookup(rebuilt, p) == Lookup(Contents(t, w.scope), p) {
        PutSlot(s, op, w, p);
        ContentsAt(s, w.scope, p);
        ContentsAt(t, w.scope, p);
      }
      SameLookup(rebuilt, Contents(t, w.scope));
    } else if ChangesNothing(s, w.scope, key, obj) {
      UnreadablePlace(s, obj);
      forall p ensures Lookup(rebuilt, p) == Lookup(Contents(t, w.scope), p) {
        OtherSlot(s, w.scope, key, obj, kind, p);
        ContentsAt(s, w.scope, p);
        ContentsAt(t, w.scope, p);
      }
      SameLookup(rebuilt, Contents(t, w.scope));
    } else {
      Misplaced(s, w.scope, key, obj, kind);
    }
  }

  lemma UnreadablePlace(s: Store, obj: Object)
    requires !ReadsBack(obj)
    ensures Kept(s, obj) == map[] && KeptPlace(obj) == Place("", "") && ClientPlace(map[]) == Place("", "")
  {
    hide Stamp, CloneObject, ReadsBack;
    StampVersion(obj, s.revision + 1);
    StampedPlace(obj, 0);
  }

  /** An accepted put leaves every slot but its own as it was. */
  lemma OtherSlot(s: Store, scope: Scope, key: ObjectKey, obj: Object, kind: EventType, p: Place)
    requires PutVerdict(s, key, obj, kind) == Stored && InScope(scope, key)
    ensures Slot(Put(s, key, obj, kind), scope, p) == if p == PlaceOf(key) then Present(Kept(s, obj)) else Slot(s, scope, p)
  {
    hide Put, Kept, PutVerdict;
    PutEffect(s, key, obj, kind);
    SlotAt(s, scope, key, p);
  }

  lemma Misplaced(s: Store, scope: Scope, key: ObjectKey, obj: Object, kind: EventType)
    requires WithinLimits(s) && kind != Deleted && PutVerdict(s, key, obj, kind) == Stored && InScope(scope, key)
    requires !NamesItself(key, obj) && !ChangesNothing(s, scope, key, obj)
    ensures Apply(Contents(s, scope), Event(kind, Kept(s, obj))) != Contents(Put(s, key, obj, kind), scope)
  {
    hide Put, Kept, PutVerdict, ClientPlace, Contents, Slot, InScope, VersionsDistinct, ReadsBack;
    var t, here, there := Put(s, key, obj, kind), PlaceOf(key), KeptPlace(obj);
    KeptProper(s, obj);
    ContentsAt(s, scope, here);
    ContentsAt(t, scope, here);
    ContentsAt(s, scope, there);
    ContentsAt(t, scope, there);
    OtherSlot(s, scope, key, obj, kind, here);
    OtherSlot(s, scope, key, obj, kind, there);
    if ReadsBack(obj) {
      NewSlot(s, scope, key, obj, kind);
    } else {
      UnreadablePlace(s, obj);
    }
    var rebuilt := Apply(Contents(s, scope), Event(kind, Kept(s, obj)));
    assert Lookup(rebuilt, there) == Present(Kept(s, obj));
    assert Lookup(rebuilt, here) == Slot(s, scope, here);
  }

  lemma ReplayOne(state: map<Place, Object>, e: Event)
    ensures Replay(state, [e]) == Apply(state, e)
  {
    assert [e][..0] == [];
  }

  /** After an accepted put the slot of its key holds the kept object, which it did not before. */
  lemma NewSlot(s: Store, scope: Scope, key: ObjectKey, obj: Object, kind: EventType)
    requires VersionsDistinct(s.objects, s.revision) && PutVerdict(s, key, obj, kind) == Stored && InScope(scope, key) && ReadsBack(obj)
    ensures Slot(Put(s, key, obj, kind), scope, PlaceOf(key)) == Present(Kept(s, obj))
    ensures Slot(s, scope, PlaceOf(key)) != Present(Kept(s, obj))
  {
    hide Put, Kept, PutVerdict, VersionsDistinct, ReadsBack;
    PutEffect(s, key, obj, kind);
    SlotAt(s, scope, key, PlaceOf(key));
    if key in s.objects {
      KeptIsNew(s, key, obj);
    }
  }

  /** A cluster-scoped object that was created with a namespace in its metadata. */
  const STRAY: Object := map["metadata" := Obj(map["name" := Str("node-1"), "namespace" := Str("team")])]
  const STRAY_KEY := ObjectKey("", "v1", "nodes", "", "node-1")

  lemma StrayMetadata()
    ensures EncodedLength(Obj(Metadata(STRAY))) <= 200
  {
    hide EncodedLength, StringLength;
    PairLength("name", Str("node-1"), "namespace", Str("team"));
    TextLength("name");
    TextLength("node-1");
    TextLength("namespace");
    TextLength("team");
  }

  lemma StrayLength()
    ensures ObjectLength(Stamp(STRAY, 1001)) <= 1000
  {
    hide EncodedLength, StringLength, Decimal;
    var stamped := Metadata(STRAY)["resourceVersion" := Str(Decimal(1001))];
    StrayMetadata();
    DecimalLength(1001, 4);
    TextLength(Decimal(1001));
    UpdateLength(Metadata(STRAY), "resourceVersion", Str(Decimal(1001)));
    SingletonLength("metadata", Obj(stamped));
    TextLength("metadata");
    assert Stamp(STRAY, 1001) == map["metadata" := Obj(stamped)];
  }

  lemma StrayStored()
    ensures PutVerdict(FRESH, STRAY_KEY, STRAY, Added) == Stored
  {
    hide Stamp, ObjectLength;
    StrayLength();
  }

  lemma TextLength(text: string)
    ensures EncodedLength(Str(text)) == StringLength(text) <= 2 + 6 * |text|
  {
    StringLengthBound(text);
  }

  lemma StrayReads()
    ensures ReadsBack(STRAY)
  {
    hide Decimal;
    assert STRAY["metadata"] == Obj(Metadata(STRAY));
    TextNests(Decimal(0), MAX_NESTING - 2);
    MembersNest(Metadata(Stamp(STRAY, 0)), MAX_NESTING - 1);
    MembersNest(Stamp(STRAY, 0), MAX_NESTING);
  }

  lemma StrayPlace()
    ensures !NamesItself(STRAY_KEY, STRAY)
  {
    hide CloneObject, ReadsBack;
    StampedPlace(STRAY, 0);
    StrayReads();
    AsciiValid("team");
  }

  /** A client that replays the events of a watch on all nodes then holds this one at the wrong place. */
  lemma StrayIsMisplaced(w: Watcher)
    requires w.scope == Scope("", "v1", "nodes", "") && w.labels == [] && w.fields == []
    ensures Replay(Contents(FRESH, w.scope), Filtered(w, MutationOf(FRESH, OpPut(STRAY_KEY, STRAY, Added))))
      != Contents(Put(FRESH, STRAY_KEY, STRAY, Added), w.scope)
  {
    hide Put, PutVerdict, Filtered, Contents, Replay, MutationOf;
    StrayStored();
    StrayPlace();
    StrayReads();
    ReplayNeedsAddress(FRESH, w, STRAY_KEY, STRAY, Added);
  }

  // ----- an object that leaves the selection -----

  function Labelled(value: string): Object {
    map["metadata" := Obj(map["name" := Str("p"), "labels" := Obj(map["x" := Str(value)])])]
  }

  lemma LabelledLength(value: string)
    requires |value| == 1
    ensures ObjectLength(Stamp(Labelled(value), 1001)) <= 1000 && ObjectLength(Stamp(Labelled(value), 1002)) <= 1000
  {
    LabelledStamp(value, 1001);
    LabelledStamp(value, 1002);
    hide ObjectLength, Stamp, Labelled;
  }

  lemma LabelledStamp(value: string, revision: nat)
    requires |value| == 1 && revision < 10000
    ensures ObjectLength(Stamp(Labelled(value), revision)) <= 1000
  {
    hide EncodedLength, StringLength, Decimal;
    var metadata := Metadata(Labelled(value));
    PairLength("name", Str("p"), "labels", Obj(map["x" := Str(value)]));
    SingletonLength("x", Str(value));
    TextLength("name");
    TextLength("p");
    TextLength("labels");
    TextLength("x");
    TextLength(value);
    DecimalLength(revision, 4);
    TextLength(Decimal(revision));
    UpdateLength(metadata, "resourceVersion", Str(Decimal(revision)));
    SingletonLength("metadata", Obj(metadata["resourceVersion" := Str(Decimal(revision))]));
    TextLength("metadata");
    assert Stamp(Labelled(value), revision) == map["metadata" := Obj(metadata["resourceVersion" := Str(Decimal(revision))])];
  }

  lemma LabelledReads(value: string)
    ensures ReadsBack(Labelled(value))
  {
    hide Decimal;
    TextNests(Decimal(0), MAX_NESTING - 2);
    var metadata := Metadata(Stamp(Labelled(value), 0));
    assert NestsWithin(Obj(map["x" := Str(value)]), MAX_NESTING - 2);
    MembersNest(metadata, MAX_NESTING - 1);
    MembersNest(Stamp(Labelled(value), 0), MAX_NESTING);
  }

  lemma LabelledText(value: string, revision: nat)
    ensures var stamped := Stamp(Labelled(value), revision);
      && Member(stamped, "metadata").Obj? && Member(Metadata(stamped), "labels").Obj?
      && LabelText(stamped, "x") == (value, true)
  {
    hide Decimal;
  }

  lemma LabelKept(s: Store, value: string)
    requires Ascii(value)
    ensures LabelText(Kept(s, Labelled(value)), "x") == (value, true)
  {
    LabelledReads(value);
    AsciiValid(value);
    CoerceFixes(value);
    LetterIsAscii();
    hide Labelled, ReadsBack, Readable, CloneObject, Stamp, Ascii, ValidUtf8, Coerce, LabelText, Member;
    var stamped := Stamp(Labelled(value), s.revision + 1);
    LabelledText(value, s.revision + 1);
    StampReads(Labelled(value), s.revision + 1);
    CopiedLabel(stamped, "x");
    KeptIs(s, Labelled(value));
  }

  lemma LetterIsAscii()
    ensures Ascii("x") && Ascii("1") && Ascii("2")
  {
  }

  lemma LabelDecides(s: Store, key: ObjectKey, w: Watcher, value: string)
    requires Ascii(value) && InScope(w.scope, key) && w.labels == [Requirement("x", "=", "1")] && w.fields == []
    ensures Interested(w, key, Kept(s, Labelled(value))) <==> value == "1"
  {
    LabelKept(s, value);
    MatchesOne(Kept(s, Labelled(value)), w.labels[0]);
    assert w.labels == [w.labels[0]];
    hide Kept, Labelled, Matches;
  }

  /** A pod relabelled away from a watch's selector: its watcher is told nothing and keeps it. */
  lemma RelabelledStays(w: Watcher, key: ObjectKey)
    requires InScope(w.scope, key) && w.labels == [Requirement("x", "=", "1")] && w.fields == []
    ensures var added, relabelled := OpPut(key, Labelled("1"), Added), OpPut(key, Labelled("2"), Modified);
      Leaves(Run(FRESH, [added]), w, relabelled)
  {
    hide Put, Kept, Stamp, Labelled, ObjectLength, CloneObject, Interested, Held;
    LabelledLength("1");
    LabelledLength("2");
    var t := Put(FRESH, key, Labelled("1"), Added);
    SmallAdded(FRESH, key, Labelled("1"));
    RunOne(OpPut(key, Labelled("1"), Added));
    LabelDecides(FRESH, key, w, "1");
    LabelDecides(t, key, w, "2");
  }

  lemma SameLookup(a: map<Place, Object>, b: map<Place, Object>)
    requires forall p :: Lookup(a, p) == Lookup(b, p)
    ensures a == b
  {
    forall p ensures (p in a <==> p in b) && (p in a ==> a[p] == b[p]) {
      assert Lookup(a, p) == Lookup(b, p);
    }
  }

  lemma {:induction false} FilteredPrefix(s: Store, w: Watcher, first: seq<Op>, second: seq<Op>)
    ensures Filtered(w, Mutations(s, first)) <= Filtered(w, Mutations(s, first + second))
  {
    hide Filtered, MutationOf, Step;
    if second == [] {
      assert first + second == first;
    } else {
      var shorter := second[..|second| - 1];
      FilteredPrefix(s, w, first, shorter);
      assert (first + second)[..|first + second| - 1] == first + shorter;
      var t := Run(s, first + shorter);
      StepRevision(t, second[|second| - 1]);
      FilteredStep(w, Mutations(s, first + shorter), MutationOf(t, second[|second| - 1]));
    }
  }

  // ----- the watch request: register, list one page, then stream -----

  /** The synthetic ADDED events the watch handler writes for the objects it listed. */
  function AddedEvents(items: seq<Object>): seq<Event> {
    seq(|items|, i requires 0 <= i < |items| => Event(Added, items[i]))
  }

  /** Listed objects, replayed: each is found at its place, and nothing else is. */
  lemma {:induction false} ReplayAdded(items: seq<Object>, ps: seq<Place>, p: Place)
    requires |items| == |ps| && forall i :: 0 <= i < |ps| ==> ClientPlace(items[i]) == ps[i]
    requires forall i, j :: 0 <= i < j < |ps| ==> ps[i] != ps[j]
    ensures p !in ps ==> Lookup(Replay(map[], AddedEvents(items)), p) == Absent
    ensures forall i :: 0 <= i < |ps| && ps[i] == p ==> Lookup(Replay(map[], AddedEvents(items)), p) == Present(items[i])
  {
    hide ClientPlace;
    if items != [] {
      var n := |items| - 1;
      ReplayAdded(items[..n], ps[..n], p);
      assert AddedEvents(items)[..n] == AddedEvents(items[..n]);
      assert ps == ps[..n] + [ps[n]];
    }
  }

  lemma SnapshotSelected(s: Store, w: Watcher)
    requires Proper(s)
    ensures var ps := Matching(s, w.scope, w.labels, w.fields);
      Replay(map[], AddedEvents(Items(s, w.scope, ps, 0, |ps|))) == Selected(s, w)
  {
    hide Matches;
    var ps := Matching(s, w.scope, w.labels, w.fields);
    var items := Items(s, w.scope, ps, 0, |ps|);
    var state := Replay(map[], AddedEvents(items));
    ItemsProper(s, w.scope, ps);
    SortedNoRepeats(ps);
    forall p ensures Lookup(state, p) == Lookup(Selected(s, w), p) {
      SelectedAt(s, w, p);
      ReplayAdded(items, ps, p);
      VisibleMatches(s, w, p);
      if p in ps {
        var i :| 0 <= i < |ps| && ps[i] == p;
        assert items[i] == s.objects[KeyAt(w.scope, ps[i])];
      }
    }
    SameLookup(state, Selected(s, w));
    hide Matching, Selected, Replay, Lookup, AddedEvents;
  }

  lemma VisibleMatches(s: Store, w: Watcher, p: Place)
    ensures MatchesAt(s, w.scope, w.labels, w.fields, p) <==> Visible(s, w, p).Present?
    ensures Visible(s, w, p).Present? ==> Visible(s, w, p).obj == s.objects[KeyAt(w.scope, p)]
  {
    hide Matches;
  }

  lemma ItemsProper(s: Store, scope: Scope, ps: seq<Place>)
    requires Proper(s) && AllStored(s, scope, ps)
    ensures var items := Items(s, scope, ps, 0, |ps|);
      forall i :: 0 <= i < |ps| ==> items[i] == s.objects[KeyAt(scope, ps[i])] && ClientPlace(items[i]) == ps[i]
  {
  }

  /**
   * A client that starts a watch, is sent the first page as ADDED events and then the channel,
   * holds what its selectors select whenever its channel is drained, provided the listing fitted
   * one page, the watcher was not dropped for being slow, and no object left the selection.
   */
  lemma WatchThenList(s: Store, scope: Scope, labels: seq<Requirement>, fields: seq<Requirement>, first: seq<Op>, second: seq<Op>)
    requires ChannelsSound(s) && Proper(s) && ProperOps(first) && ProperOps(second)
    requires var listed := Run(Watch(s, scope, labels, fields), first);
      PageEnd(listed, scope, labels, fields, 0, MAX_LIST_PAGE_ITEMS) == |Matching(listed, scope, labels, fields)|
    requires s.nextWatcher + 1 in Run(Watch(s, scope, labels, fields), first + second).watchers
    requires NoneLeaves(Watch(s, scope, labels, fields), Watcher(s.nextWatcher + 1, scope, labels, fields), first + second)
    ensures
      var w, start := Watcher(s.nextWatcher + 1, scope, labels, fields), Watch(s, scope, labels, fields);
      var listed, now := Run(start, first), Run(start, first + second);
      var page := Items(listed, scope, Matching(listed, scope, labels, fields), 0, PageEnd(listed, scope, labels, fields, 0, MAX_LIST_PAGE_ITEMS));
      w.id in now.channels &&
      Replay(map[], AddedEvents(page) + (Received(start, first + second, w.id) + now.channels[w.id].buffer)) == Selected(now, w)
  {
    hide Replay, Filtered, Selected, Mutations, Received, Proper, ChannelsSound, ProperOps, Extend, AddedEvents, NoneLeaves;
    var start, w := Watch(s, scope, labels, fields), Watcher(s.nextWatcher + 1, scope, labels, fields);
    var listed := Run(start, first);
    WatchStarts(s, scope, labels, fields);
    WatchHistory(start, w, first + second);
    RunProper(start, first);
    SnapshotSelected(listed, w);
    var ps := Matching(listed, scope, labels, fields);
    ReplayConcat(map[], AddedEvents(Items(listed, scope, ps, 0, |ps|)), Filtered(w, Mutations(start, first + second)));
    ReplayFromSnapshot(start, w, first, second);
  }

  lemma WatchStarts(s: Store, scope: Scope, labels: seq<Requirement>, fields: seq<Requirement>)
    requires ChannelsSound(s) && Proper(s)
    ensures var w, t := Watcher(s.nextWatcher + 1, scope, labels, fields), Watch(s, scope, labels, fields);
      && ChannelsSound(t) && Proper(t)
      && Registered(t, w) && t.channels[w.id] == Channel([], false)
  {
  }
}
