/** What every run of store operations keeps. */
module StoreRuns {
  import opened Sums
  import opened Text
  import opened Utf8
  import opened Json
  import opened Names
  import opened Selectors
  import opened StoreModel

  // ----- channels: no send on, and no second close of, a closed channel -----

  ghost predicate ChannelsSound(s: Store) {
    && (forall id :: id in s.watchers ==> id in s.channels && s.watchers[id].id == id)
    && (forall id :: id in s.channels ==>
      && 1 <= id <= s.nextWatcher
      && |s.channels[id].buffer| <= CHANNEL_CAPACITY
      && (s.channels[id].closed <==> id !in s.watchers))
  }

  lemma PublishSound(s: Store, key: ObjectKey, e: Event)
    requires ChannelsSound(s)
    ensures ChannelsSound(Publish(s, key, e))
  {
  }

  lemma PutSound(s: Store, key: ObjectKey, obj: Object, kind: EventType)
    requires ChannelsSound(s)
    ensures ChannelsSound(Put(s, key, obj, kind))
  {
    hide Publish, Kept, ChargedTotal, PutVerdict;
    PublishSound(Commit(s, key, Kept(s, obj), ChargedTotal(s, key, obj)), key, Event(kind, Kept(s, obj)));
  }

  lemma DeleteSound(s: Store, key: ObjectKey)
    requires ChannelsSound(s)
    ensures ChannelsSound(Delete(s, key))
  {
    hide Publish, CloneObject, StoredLength;
    if key in s.objects {
      PublishSound(Remove(s, key, s.bytes - StoredLength(s.objects, key)), key, Event(Deleted, CloneObject(s.objects[key])));
    }
  }

  lemma StepSound(s: Store, op: Op)
    requires ChannelsSound(s)
    ensures ChannelsSound(Step(s, op))
  {
    hide Put, Delete;
    match op
    case OpPut(key, obj, kind) => PutSound(s, key, obj, kind);
    case OpDelete(key) => DeleteSound(s, key);
    case _ =>
  }

  /** In every run each registered watcher has its own open channel and every other channel is closed. */
  lemma {:induction false} RunSound(s: Store, ops: seq<Op>)
    requires ChannelsSound(s)
    ensures ChannelsSound(Run(s, ops))
    ensures ChannelsOpen(Run(s, ops))
  {
    if ops != [] {
      RunSound(s, ops[..|ops| - 1]);
      StepSound(Run(s, ops[..|ops| - 1]), ops[|ops| - 1]);
    }
  }

  // ----- budgets and revisions -----

  function VersionText(obj: Object): (string, bool) {
    TextOf(Metadata(obj), "resourceVersion")
  }

  ghost predicate VersionAtMost(obj: Object, revision: nat) {
    exists r: nat :: r <= revision && VersionText(obj) == (Decimal(r), true)
  }

  /** Stored objects that are not empty carry pairwise distinct revisions that the store has reached. */
  ghost predicate VersionsDistinct(objects: map<ObjectKey, Object>, revision: nat) {
    && (forall k :: k in objects && objects[k] != map[] ==> VersionAtMost(objects[k], revision))
    && (forall j, k :: j in objects && k in objects && j != k && objects[j] != map[] ==> VersionText(objects[j]) != VersionText(objects[k]))
  }

  ghost predicate WithinLimits(s: Store) {
    && |s.objects| <= MAX_STORED_OBJECTS
    && s.bytes <= MAX_STORED_BYTES
    && VersionsDistinct(s.objects, s.revision)
  }

  /** What put makes of the object can be decoded again; the revision in the stamp does not matter. */
  predicate ReadsBack(obj: Object) {
    Readable(Stamp(obj, 0))
  }

  lemma NestsUpdate(o: Object, k: string, x: Json, y: Json, depth: nat)
    requires depth > 0 && (NestsWithin(x, depth - 1) <==> NestsWithin(y, depth - 1))
    ensures NestsWithin(Obj(o[k := x]), depth) <==> NestsWithin(Obj(o[k := y]), depth)
  {
    hide NestsWithin;
    MembersNest(o[k := x], depth);
    MembersNest(o[k := y], depth);
    var m, n := o[k := x], o[k := y];
    assert m[k] == x && n[k] == y;
    assert forall j :: j in m ==> j in n && (j == k || m[j] == n[j]);
    assert forall j :: j in n ==> j in m;
  }

  lemma MembersNest(m: Object, depth: nat)
    requires depth > 0
    ensures NestsWithin(Obj(m), depth) <==> forall k :: k in m ==> NestsWithin(m[k], depth - 1)
  {
  }

  lemma StampReads(obj: Object, revision: nat)
    ensures Readable(Stamp(obj, revision)) <==> ReadsBack(obj)
  {
    hide Decimal, Metadata, NestsWithin;
    TextNests(Decimal(revision), MAX_NESTING - 2);
    TextNests(Decimal(0), MAX_NESTING - 2);
    NestsUpdate(Metadata(obj), "resourceVersion", Str(Decimal(revision)), Str(Decimal(0)), MAX_NESTING - 1);
    NestsUpdate(obj, "metadata", Stamp(obj, revision)["metadata"], Stamp(obj, 0)["metadata"], MAX_NESTING);
  }

  lemma TextNests(text: string, depth: nat)
    ensures NestsWithin(Str(text), depth)
  {
  }

  /** The copy carries the stamped revision, or is empty if it cannot be decoded again. */
  lemma StampVersion(obj: Object, revision: nat)
    ensures var copy := CloneObject(Stamp(obj, revision));
      if ReadsBack(obj) then copy != map[] && VersionText(copy) == (Decimal(revision), true) else copy == map[]
  {
    hide Reread, Readable, Decimal;
    var stamped := Metadata(obj)["resourceVersion" := Str(Decimal(revision))];
    StampReads(obj, revision);
    CloneMapAt(Stamp(obj, revision), "metadata");
    assert Metadata(Reread(Stamp(obj, revision))) == Reread(stamped);
    CloneTextAt(stamped, "resourceVersion");
    DecimalRoundTrip(revision);
    AsciiValid(Decimal(revision));
  }

  // ----- which puts are accepted -----

  /** What put charges: the encoding of the object with its new resourceVersion. */
  ghost function Charged(obj: Object, revision: nat): nat {
    EncodedLength(Obj(obj["metadata" := Obj(Metadata(obj)["resourceVersion" := Str(Decimal(revision))])]))
  }

  /** Exactly when a put is accepted, in numbers; and an ADDED of what exists already is told so. */
  lemma PutAcceptedExactly(s: Store, key: ObjectKey, obj: Object, kind: EventType)
    ensures var charged := Charged(obj, s.revision + 1);
      var freed := if key in s.objects then EncodedLength(Obj(s.objects[key])) else 0;
      && (PutVerdict(s, key, obj, kind) == Stored <==>
            && charged <= 262144 && (key in s.objects ==> kind != Added)
            && (key in s.objects || |s.objects| < 4096) && s.bytes - freed + charged <= 33554432)
      && (PutVerdict(s, key, obj, kind) == AlreadyExists <==> charged <= 262144 && key in s.objects && kind == Added)
      && (PutVerdict(s, key, obj, kind) == Stored ==> Put(s, key, obj, kind).bytes == s.bytes - freed + charged)
  {
    hide EncodedLength, Put, Decimal;
    if PutVerdict(s, key, obj, kind) == Stored {
      PutEffect(s, key, obj, kind);
    }
  }

  // ----- what an accepted put keeps of the object -----

  /** Member `key` of `kept` is the copy of that of `given`, and absent where that is. */
  ghost predicate Copied(kept: Object, given: Object, key: string) {
    (key in kept <==> key in given) && Member(kept, key) == Clone(Member(given, key))
  }

  lemma StampMembers(obj: Object, revision: nat)
    ensures var stamped := Stamp(obj, revision);
      && (forall k :: k != "metadata" ==> (k in stamped <==> k in obj) && Member(stamped, k) == Member(obj, k))
      && "metadata" in stamped && Member(stamped, "metadata").Obj?
      && (forall k :: k != "resourceVersion" ==> (k in Metadata(stamped) <==> k in Metadata(obj)) && Member(Metadata(stamped), k) == Member(Metadata(obj), k))
      && Member(Metadata(stamped), "resourceVersion") == Str(Decimal(revision))
  {
    hide Decimal;
  }

  lemma RereadMetadata(obj: Object)
    requires "metadata" in obj && Member(obj, "metadata").Obj?
    ensures Metadata(Reread(obj)) == Reread(Metadata(obj)) && Member(Reread(obj), "metadata").Obj?
  {
    hide Reread;
    CloneMapAt(obj, "metadata");
    CloneMember(obj, "metadata");
  }

  /**
   * The stored object is the caller's, copied member by member: only metadata.resourceVersion is
   * written, and nothing is added, lost or changed besides. What is stored is what a get returns.
   */
  lemma PutKeepsMembers(s: Store, key: ObjectKey, obj: Object, kind: EventType)
    requires PutVerdict(s, key, obj, kind) == Stored && ReadsBack(obj)
    ensures key in Put(s, key, obj, kind).objects
    ensures var stored := Put(s, key, obj, kind).objects[key];
      && (forall k :: Ascii(k) && k != "metadata" ==> Copied(stored, obj, k))
      && (forall k :: Ascii(k) && k != "resourceVersion" ==> Copied(Metadata(stored), Metadata(obj), k))
      && Member(Metadata(stored), "resourceVersion") == Str(Decimal(s.revision + 1))
      && Member(stored, "metadata").Obj?
      && CloneObject(stored) == stored
    ensures forall other :: other != key ==>
      (other in Put(s, key, obj, kind).objects <==> other in s.objects) && (other in s.objects ==> Put(s, key, obj, kind).objects[other] == s.objects[other])
  {
    hide Put, PutVerdict, Stamp, Reread, Readable, Ascii, Clone, Metadata;
    PutEffect(s, key, obj, kind);
    StampReads(obj, s.revision + 1);
    var stamped := Stamp(obj, s.revision + 1);
    StampMembers(obj, s.revision + 1);
    RereadMetadata(stamped);
    CloneObjectTwice(stamped);
    forall k | Ascii(k) && k != "metadata" ensures Copied(Reread(stamped), obj, k) {
      CloneMember(stamped, k);
    }
    forall k | Ascii(k) && k != "resourceVersion" ensures Copied(Reread(Metadata(stamped)), Metadata(obj), k) {
      CloneMember(Metadata(stamped), k);
    }
    VersionMember(Metadata(stamped), s.revision + 1);
  }

  lemma VersionMember(metadata: Object, revision: nat)
    requires Member(metadata, "resourceVersion") == Str(Decimal(revision))
    ensures Member(Reread(metadata), "resourceVersion") == Str(Decimal(revision))
  {
    hide Reread, Decimal, Coerce;
    CloneMember(metadata, "resourceVersion");
    DecimalText(revision);
  }

  /** With valid keys that is all there is: the stored object has these members and no others. */
  lemma PutKeepsAll(s: Store, key: ObjectKey, obj: Object, kind: EventType)
    requires PutVerdict(s, key, obj, kind) == Stored && ReadsBack(obj)
    requires (forall k :: k in obj ==> ValidUtf8(k)) && forall k :: k in Metadata(obj) ==> ValidUtf8(k)
    ensures key in Put(s, key, obj, kind).objects
    ensures var copied := (map k | k in obj :: Clone(obj[k]));
      var metadata := (map k | k in Metadata(obj) :: Clone(Metadata(obj)[k]));
      Put(s, key, obj, kind).objects[key] == copied["metadata" := Obj(metadata["resourceVersion" := Str(Decimal(s.revision + 1))])]
  {
    hide Put, PutVerdict, Reread, Readable, Clone, ValidUtf8, Decimal, Metadata;
    PutEffect(s, key, obj, kind);
    StampReads(obj, s.revision + 1);
    var version := Str(Decimal(s.revision + 1));
    ValidKeys();
    RereadWith(obj, "metadata", Obj(Metadata(obj)["resourceVersion" := version]));
    RereadWith(Metadata(obj), "resourceVersion", version);
    RereadObject(Metadata(obj)["resourceVersion" := version]);
    DecimalText(s.revision + 1);
    TextCopy(Decimal(s.revision + 1));
  }

  lemma RereadWith(o: Object, key: string, x: Json)
    requires ValidUtf8(key) && forall k :: k in o ==> ValidUtf8(k)
    ensures Reread(o[key := x]) == (map k | k in o :: Clone(o[k]))[key := Clone(x)]
  {
    hide Reread, Clone, ValidUtf8;
    ValidMembers(o[key := x]);
  }

  lemma ValidKeys()
    ensures ValidUtf8("metadata") && ValidUtf8("resourceVersion")
  {
    hide ValidUtf8, Ascii;
    MetadataIsAscii();
    VersionIsAscii();
    AsciiValid("metadata");
    AsciiValid("resourceVersion");
  }

  lemma MetadataIsAscii()
    ensures Ascii("metadata")
  {
  }

  lemma VersionIsAscii()
    ensures Ascii("resourceVersion")
  {
  }

  lemma InsertVersions(objects: map<ObjectKey, Object>, revision: nat, key: ObjectKey, kept: Object)
    requires VersionsDistinct(objects, revision)
    requires kept == map[] || VersionText(kept) == (Decimal(revision + 1), true)
    ensures VersionsDistinct(objects[key := kept], revision + 1)
  {
    EmptyHasNoVersion();
    hide VersionText;
    forall k | k in objects && objects[k] != map[]
      ensures VersionAtMost(objects[k], revision + 1) && VersionText(objects[k]) != VersionText(kept)
    {
      var r: nat :| r <= revision && VersionText(objects[k]) == (Decimal(r), true);
      if VersionText(objects[k]) == VersionText(kept) {
        DecimalInjective(r, revision + 1);
      }
    }
    if kept != map[] {
      assert VersionAtMost(kept, revision + 1);
      forall k | k in objects ensures VersionText(kept) != VersionText(objects[k]) {
      }
    }
  }

  lemma EmptyHasNoVersion()
    ensures VersionText(map[]) == ("", false)
  {
  }

  lemma PutWithinLimits(s: Store, key: ObjectKey, obj: Object, kind: EventType)
    requires WithinLimits(s) && PutVerdict(s, key, obj, kind) == Stored
    ensures WithinLimits(Put(s, key, obj, kind))
  {
    PutEffect(s, key, obj, kind);
    StampVersion(obj, s.revision + 1);
    InsertVersions(s.objects, s.revision, key, Kept(s, obj));
    SizeWith(s.objects, key, Kept(s, obj));
    hide Put, Stamp, CloneObject, VersionsDistinct, ReadsBack;
  }

  lemma RemoveVersions(objects: map<ObjectKey, Object>, revision: nat, key: ObjectKey)
    requires VersionsDistinct(objects, revision)
    ensures VersionsDistinct(objects - {key}, revision + 1)
  {
    hide VersionText;
    forall k | k in objects && objects[k] != map[] ensures VersionAtMost(objects[k], revision + 1) {
      var r: nat :| r <= revision && VersionText(objects[k]) == (Decimal(r), true);
    }
  }

  lemma DeleteWithinLimits(s: Store, key: ObjectKey)
    requires WithinLimits(s) && key in s.objects
    ensures WithinLimits(Delete(s, key))
  {
    hide Delete, VersionsDistinct, StoredLength;
    DeleteEffect(s, key);
    SizeWithout(s.objects, key);
    RemoveVersions(s.objects, s.revision, key);
  }

  lemma StepWithinLimits(s: Store, op: Op)
    requires WithinLimits(s)
    ensures WithinLimits(Step(s, op))
  {
    hide VersionsDistinct;
    match op
    case OpPut(key, obj, kind) =>
      if PutVerdict(s, key, obj, kind) == Stored {
        PutWithinLimits(s, key, obj, kind);
      }
    case OpDelete(key) =>
      if key in s.objects {
        DeleteWithinLimits(s, key);
      }
    case _ =>
  }

  lemma StepRevision(s: Store, op: Op)
    ensures Step(s, op).revision == s.revision + |MutationOf(s, op)|
    ensures |MutationOf(s, op)| <= 1
    ensures MutationOf(s, op) == [] ==> Step(s, op).objects == s.objects && Step(s, op).bytes == s.bytes
  {
    match op
    case OpPut(key, obj, kind) =>
      if PutVerdict(s, key, obj, kind) == Stored {
        PutEffect(s, key, obj, kind);
        hide Put, Kept;
      }
    case OpDelete(key) =>
      if key in s.objects {
        DeleteEffect(s, key);
        hide Delete, CloneObject;
      }
    case _ =>
  }

  /** Every run from the fresh store stays within its limits, and each mutation takes exactly one revision. */
  lemma {:induction false} RunWithinLimits(ops: seq<Op>)
    ensures WithinLimits(Run(FRESH, ops))
    ensures Run(FRESH, ops).revision == 1000 + |Mutations(FRESH, ops)|
  {
    if ops != [] {
      var before, op := ops[..|ops| - 1], ops[|ops| - 1];
      RunWithinLimits(before);
      StepRevision(Run(FRESH, before), op);
      StepWithinLimits(Run(FRESH, before), op);
      hide WithinLimits, Step, MutationOf;
    }
  }

  lemma {:induction false} RevisionGrows(s: Store, ops: seq<Op>)
    ensures Run(s, ops).revision == s.revision + |Mutations(s, ops)|
  {
    if ops != [] {
      RevisionGrows(s, ops[..|ops| - 1]);
      StepRevision(Run(s, ops[..|ops| - 1]), ops[|ops| - 1]);
    }
  }

  // ----- byte accounting -----

  ghost function Lengths(objects: map<ObjectKey, Object>): map<ObjectKey, int> {
    map k | k in objects :: ObjectLength(objects[k])
  }

  /** What the stored objects encode to, all together. */
  ghost function Held(objects: map<ObjectKey, Object>): int {
    Total(Lengths(objects))
  }

  lemma InsertHeld(objects: map<ObjectKey, Object>, key: ObjectKey, kept: Object)
    ensures Held(objects[key := kept]) == Held(objects) - StoredLength(objects, key) + ObjectLength(kept)
  {
    hide ObjectLength;
    assert Lengths(objects[key := kept]) == Lengths(objects)[key := ObjectLength(kept)];
    TotalUpdate(Lengths(objects), key, ObjectLength(kept));
  }

  lemma RemoveHeld(objects: map<ObjectKey, Object>, key: ObjectKey)
    ensures Held(objects - {key}) == Held(objects) - StoredLength(objects, key)
  {
    hide ObjectLength;
    assert Lengths(objects - {key}) == Lengths(objects) - {key};
    TotalRemove(Lengths(objects), key);
  }

  /** An accepted put, with the object it was given. */
  ghost predicate Accepted(s: Store, op: Op) {
    op.OpPut? && PutVerdict(s, op.key, op.obj, op.kind) == Stored
  }

  /** How much longer the kept copy encodes than the object put was charged for. */
  ghost function Drift(s: Store, op: Op): int {
    if Accepted(s, op) then ObjectLength(Kept(s, op.obj)) - ObjectLength(Stamp(op.obj, s.revision + 1)) else 0
  }

  ghost function TotalDrift(s: Store, ops: seq<Op>): int {
    if ops == [] then 0
    else
      var before := ops[..|ops| - 1];
      TotalDrift(s, before) + Drift(Run(s, before), ops[|ops| - 1])
  }

  /** Numbers that keep their length, and text that stays as it is; the stamp itself is plain text. */
  ghost predicate StableObject(obj: Object) {
    StableNumbers(Obj(Stamp(obj, 0)))
  }

  ghost predicate ValidObject(obj: Object) {
    ValidText(Obj(Stamp(obj, 0)))
  }

  lemma StableStamp(obj: Object, revision: nat)
    ensures StableNumbers(Obj(Stamp(obj, revision))) <==> StableObject(obj)
  {
    var a, b := Stamp(obj, revision), Stamp(obj, 0);
    var m, n := a["metadata"], b["metadata"];
    assert forall k :: k in a && k != "metadata" ==> a[k] == b[k];
    assert StableNumbers(m) <==> StableNumbers(n) by {
      assert forall k :: k in m.members && k != "resourceVersion" ==> m.members[k] == n.members[k];
    }
  }

  lemma ValidUpdate(o: Object, k: string, x: Json, y: Json)
    requires ValidText(x) <==> ValidText(y)
    ensures ValidText(Obj(o[k := x])) <==> ValidText(Obj(o[k := y]))
  {
    hide ValidUtf8, ValidText;
    ValidTextMembers(o[k := x]);
    ValidTextMembers(o[k := y]);
    assert forall j :: j in o && j != k ==> o[k := x][j] == o[k := y][j];
  }

  lemma ValidStamp(obj: Object, revision: nat)
    ensures ValidText(Obj(Stamp(obj, revision))) <==> ValidObject(obj)
  {
    DecimalText(revision);
    DecimalText(0);
    hide ValidUtf8, Decimal, Metadata;
    ValidUpdate(Metadata(obj), "resourceVersion", Str(Decimal(revision)), Str(Decimal(0)));
    ValidUpdate(obj, "metadata", Stamp(obj, revision)["metadata"], Stamp(obj, 0)["metadata"]);
  }

  lemma DecimalText(n: nat)
    ensures ValidUtf8(Decimal(n)) && Coerce(Decimal(n)) == Decimal(n)
  {
    DecimalRoundTrip(n);
    AsciiValid(Decimal(n));
  }

  lemma DriftOf(s: Store, op: Op)
    requires Accepted(s, op)
    ensures var stamped := Obj(Stamp(op.obj, s.revision + 1));
      Drift(s, op) == (if ReadsBack(op.obj) then EncodedLength(Clone(stamped)) else 2) - EncodedLength(stamped)
  {
    hide Stamp, EncodedLength, PutVerdict, Reread, Readable, Clone;
    StampReads(op.obj, s.revision + 1);
    RereadObject(Stamp(op.obj, s.revision + 1));
    NothingLength();
  }

  lemma NothingLength()
    ensures EncodedLength(Obj(map[])) == 2
  {
    assert MemberLengths(Obj(map[])) == map[];
  }

  lemma StampIsLong(obj: Object, revision: nat)
    ensures EncodedLength(Obj(Stamp(obj, revision))) > 2
  {
    hide EncodedLength, MemberLengths, StringLength, Metadata, Decimal;
    var stamped := Stamp(obj, revision);
    ObjectLengthParts(stamped);
    MemberWeight(stamped, "metadata");
    var w := MemberLengths(Obj(stamped));
    TotalExtract(w, "metadata");
    TotalNonNegative(w - {"metadata"});
  }

  /** With valid text the copy is never shorter unless it cannot be decoded again; numbers can only lengthen it. */
  lemma NumbersDriftUp(s: Store, op: Op)
    requires Accepted(s, op) && ValidObject(op.obj)
    ensures Drift(s, op) >= 0 <==> ReadsBack(op.obj)
    ensures Drift(s, op) == 0 <==> ReadsBack(op.obj) && StableObject(op.obj)
  {
    hide Stamp, StableObject, ValidObject, EncodedLength, StableNumbers, ValidText, PutVerdict, Clone, Drift, ReadsBack;
    StableStamp(op.obj, s.revision + 1);
    ValidStamp(op.obj, s.revision + 1);
    StampIsLong(op.obj, s.revision + 1);
    DriftOf(s, op);
    CloneLength(Obj(Stamp(op.obj, s.revision + 1)));
  }

  /** With stable numbers the copy is never longer; text and nesting can only shorten it. */
  lemma TextDriftsDown(s: Store, op: Op)
    requires Accepted(s, op) && StableObject(op.obj)
    ensures Drift(s, op) <= 0
    ensures Drift(s, op) == 0 <==> ReadsBack(op.obj) && ValidObject(op.obj)
  {
    hide Stamp, StableObject, ValidObject, EncodedLength, StableNumbers, ValidText, PutVerdict, Clone, Drift, ReadsBack;
    StableStamp(op.obj, s.revision + 1);
    ValidStamp(op.obj, s.revision + 1);
    StampIsLong(op.obj, s.revision + 1);
    DriftOf(s, op);
    CloneNoLonger(Obj(Stamp(op.obj, s.revision + 1)));
  }

  lemma StepHeld(s: Store, op: Op)
    ensures Held(Step(s, op).objects) - Step(s, op).bytes == Held(s.objects) - s.bytes + Drift(s, op)
  {
    match op
    case OpPut(key, obj, kind) =>
      if PutVerdict(s, key, obj, kind) == Stored {
        PutEffect(s, key, obj, kind);
        InsertHeld(s.objects, key, Kept(s, obj));
        hide Put, PutVerdict, Kept, Stamp, ObjectLength, Held;
      }
    case OpDelete(key) =>
      DeleteEffect(s, key);
      RemoveHeld(s.objects, key);
      hide Delete, Held;
    case _ =>
  }

  lemma {:induction false} RunHeld(s: Store, ops: seq<Op>)
    ensures Held(Run(s, ops).objects) - Run(s, ops).bytes == Held(s.objects) - s.bytes + TotalDrift(s, ops)
  {
    if ops != [] {
      var before := ops[..|ops| - 1];
      RunHeld(s, before);
      StepHeld(Run(s, before), ops[|ops| - 1]);
    }
  }

  /** If the put is accepted, the copy it keeps encodes to the length it was charged. */
  ghost predicate KeepsLength(s: Store, op: Op) {
    Accepted(s, op) ==> ObjectLength(Kept(s, op.obj)) == ObjectLength(Stamp(op.obj, s.revision + 1))
  }

  /** What the counter lacks, or has too much, changes with a put exactly when the copy changes length. */
  lemma StepExact(s: Store, op: Op)
    ensures Held(Step(s, op).objects) - Step(s, op).bytes == Held(s.objects) - s.bytes <==> KeepsLength(s, op)
  {
    hide Step, Held, Kept, Stamp, ObjectLength, PutVerdict;
    StepHeld(s, op);
  }

  ghost predicate KeepsLengths(s: Store, ops: seq<Op>) {
    ops != [] ==> KeepsLengths(s, ops[..|ops| - 1]) && KeepsLength(Run(s, ops[..|ops| - 1]), ops[|ops| - 1])
  }

  ghost predicate ExactAt(s: Store, ops: seq<Op>, n: nat)
    requires n <= |ops|
  {
    Run(s, ops[..n]).bytes == Held(Run(s, ops[..n]).objects)
  }

  lemma {:induction false} ExactThroughout(s: Store, ops: seq<Op>)
    requires s.bytes == Held(s.objects)
    ensures KeepsLengths(s, ops) <==> forall n :: 0 <= n <= |ops| ==> ExactAt(s, ops, n)
  {
    hide Held, KeepsLength, Step;
    if ops == [] {
      assert ops[..0] == [];
    } else {
      var before, op := ops[..|ops| - 1], ops[|ops| - 1];
      ExactThroughout(s, before);
      StepExact(Run(s, before), op);
      assert ops[..|ops|] == ops && before[..|before|] == before;
      forall n | 0 <= n <= |before| ensures ExactAt(s, ops, n) <==> ExactAt(s, before, n) {
        assert ops[..n] == before[..n];
      }
      assert ExactAt(s, before, |before|) <==> Run(s, before).bytes == Held(Run(s, before).objects);
      assert ExactAt(s, ops, |ops|) <==> Run(s, ops).bytes == Held(Run(s, ops).objects);
    }
  }

  /**
   * The byte counter equals what is stored throughout a run exactly when each accepted put of
   * the run kept the length of what it was given.
   */
  lemma AccountingExact(ops: seq<Op>)
    ensures KeepsLengths(FRESH, ops) <==> forall n :: 0 <= n <= |ops| ==> ExactAt(FRESH, ops, n)
  {
    assert Lengths(FRESH.objects) == map[];
    ExactThroughout(FRESH, ops);
  }

  ghost predicate ObjectsBounded(s: Store) {
    forall k :: k in s.objects ==> ObjectLength(s.objects[k]) <= MAX_STORED_OBJECT_BYTES
  }

  lemma StepBounded(s: Store, op: Op)
    requires ObjectsBounded(s) && KeepsLength(s, op)
    ensures ObjectsBounded(Step(s, op))
  {
    hide Put, Delete, Stamp, ObjectLength, Kept;
    match op
    case OpPut(key, obj, kind) =>
      if PutVerdict(s, key, obj, kind) == Stored {
        PutEffect(s, key, obj, kind);
        ChargeBound(s, key, obj, kind);
      } else {
        PutRefused(s, key, obj, kind);
      }
    case OpDelete(key) =>
      DeleteEffect(s, key);
    case _ =>
  }

  lemma ChargeBound(s: Store, key: ObjectKey, obj: Object, kind: EventType)
    requires PutVerdict(s, key, obj, kind) == Stored
    ensures ObjectLength(Stamp(obj, s.revision + 1)) <= MAX_STORED_OBJECT_BYTES
  {
    hide Stamp, ObjectLength;
  }

  /** On such a run the real limits hold too: for each stored object, and for all of them together. */
  lemma {:induction false} KeptRunBounded(ops: seq<Op>)
    requires KeepsLengths(FRESH, ops)
    ensures ObjectsBounded(Run(FRESH, ops))
    ensures Held(Run(FRESH, ops).objects) <= MAX_STORED_BYTES
  {
    hide ObjectsBounded, Step, KeepsLength, Held;
    AccountingExact(ops);
    assert ExactAt(FRESH, ops, |ops|) && ops[..|ops|] == ops;
    RunWithinLimits(ops);
    if ops == [] {
      NothingBounded();
    } else {
      var before, op := ops[..|ops| - 1], ops[|ops| - 1];
      KeptRunBounded(before);
      StepBounded(Run(FRESH, before), op);
    }
  }

  lemma NothingBounded()
    ensures ObjectsBounded(FRESH)
  {
  }

  // ----- both kinds of drift -----

  /** An object with one section besides its metadata drifts as that section does. */
  lemma SectionDrift(section: string, x: Json, revision: nat)
    requires Ascii(section) && section != "metadata" && NestsWithin(x, MAX_NESTING - 1)
    ensures var obj := map[section := x];
      ObjectLength(CloneObject(Stamp(obj, revision))) - ObjectLength(Stamp(obj, revision)) == EncodedLength(Clone(x)) - EncodedLength(x)
  {
    hide EncodedLength, Decimal, StringLength;
    var version: Object := map["resourceVersion" := Str(Decimal(revision))];
    assert Stamp(map[section := x], revision) == map[section := x, "metadata" := Obj(version)];
    StampedCopy(section, x, revision);
    SectionReads(section, x, revision);
    PairLength(section, x, "metadata", Obj(version));
    PairLength(section, Clone(x), "metadata", Obj(version));
  }

  lemma SectionReads(section: string, x: Json, revision: nat)
    requires section != "metadata" && NestsWithin(x, MAX_NESTING - 1)
    ensures Readable(Stamp(map[section := x], revision))
  {
    hide Decimal, Metadata;
    TextNests(Decimal(revision), MAX_NESTING - 2);
    assert Metadata(map[section := x]) == map[] by { SectionMetadata(section, x); }
    var version: Object := map["resourceVersion" := Str(Decimal(revision))];
    assert NestsWithin(Obj(version), MAX_NESTING - 1);
    assert Stamp(map[section := x], revision) == map[section := x, "metadata" := Obj(version)];
  }

  lemma SectionMetadata(section: string, x: Json)
    requires section != "metadata"
    ensures Metadata(map[section := x]) == map[]
  {
  }

  lemma PairCopy(j: string, u: Json, k: string, v: Json)
    requires Ascii(j) && Ascii(k) && j != k
    ensures Reread(map[j := u, k := v]) == map[j := Clone(u), k := Clone(v)]
  {
    hide Clone, Reread, ValidUtf8, Coerce, Ascii;
    AsciiValid(j);
    AsciiValid(k);
    ValidMembers(map[j := u, k := v]);
  }

  lemma TextCopy(text: string)
    requires Coerce(text) == text
    ensures Clone(Str(text)) == Str(text)
  {
  }

  lemma StampedCopy(section: string, x: Json, revision: nat)
    requires Ascii(section) && section != "metadata"
    ensures var version: Object := map["resourceVersion" := Str(Decimal(revision))];
      Reread(map[section := x, "metadata" := Obj(version)]) == map[section := Clone(x), "metadata" := Obj(version)]
  {
    hide Decimal, Coerce, ValidUtf8, Clone, Reread, EncodedLength;
    DecimalText(revision);
    CloneOne("resourceVersion", Str(Decimal(revision)));
    TextCopy(Decimal(revision));
    PairCopy(section, x, "metadata", Obj(map["resourceVersion" := Str(Decimal(revision))]));
  }

  /** A number 9999999999999999999, which reads back as the float 10000000000000000000. */
  const LONG := Num(Integer("9999999999999999999", "10000000000000000000"))
  const PORT: Json := Obj(map["port" := LONG])

  /** A Deployment asking for that many replicas, a Service with three such ports, and a ConfigMap with a byte that is no text. */
  const DRIFTING: Object := map["spec" := Obj(map["replicas" := LONG])]
  const THRICE_DRIFTING: Object := map["spec" := Obj(map["ports" := Arr([PORT, PORT, PORT])])]
  const BINARY: Object := map["data" := Texts(map["k" := "\U{FF}"])]

  lemma CloneOne(k: string, x: Json)
    requires Ascii(k)
    ensures Clone(Obj(map[k := x])) == Obj(map[k := Clone(x)])
    ensures EncodedLength(Clone(Obj(map[k := x]))) - EncodedLength(Obj(map[k := x])) == EncodedLength(Clone(x)) - EncodedLength(x)
  {
    hide EncodedLength, Coerce, ValidUtf8, Clone, Reread;
    CopyOfOne(k, x);
    SingletonLength(k, x);
    SingletonLength(k, Clone(x));
  }

  lemma CopyOfOne(k: string, x: Json)
    requires Ascii(k)
    ensures Clone(Obj(map[k := x])) == Obj(map[k := Clone(x)])
  {
    hide Clone, Reread, Coerce, ValidUtf8, Ascii;
    AsciiValid(k);
    ValidMembers(map[k := x]);
    RereadObject(map[k := x]);
    assert Reread(map[k := x]) == map[k := Clone(x)];
  }

  lemma ArrLength(xs: seq<Json>)
    ensures EncodedLength(Arr(xs)) == 2 + ItemsLength(xs)
  {
  }

  lemma ThreeItems(x: Json)
    ensures EncodedLength(Arr([x, x, x])) == 4 + 3 * EncodedLength(x)
    ensures Clone(Arr([x, x, x])) == Arr([Clone(x), Clone(x), Clone(x)])
  {
    hide Clone;
    hide EncodedLength;
    assert [x, x, x][1..] == [x, x] && [x, x][1..] == [x] && [x][1..] == [];
    assert ItemsLength([x]) == EncodedLength(x) && ItemsLength([x, x]) == 2 * EncodedLength(x) + 1;
    assert ItemsLength([x, x, x]) == 3 * EncodedLength(x) + 2;
    ArrLength([x, x, x]);
    assert Clone(Arr([x, x, x])) == Arr([Clone(x), Clone(x), Clone(x)]) by {
      CloneThree(x);
    }
  }

  lemma CloneThree(x: Json)
    ensures Clone(Arr([x, x, x])) == Arr([Clone(x), Clone(x), Clone(x)])
  {
    var copies := Clone(Arr([x, x, x])).items;
    assert |copies| == 3 && copies[0] == Clone(x) && copies[1] == Clone(x) && copies[2] == Clone(x);
  }

  lemma BinaryText()
    ensures EncodedLength(Clone(BINARY["data"])) - EncodedLength(BINARY["data"]) == 0 - 3
  {
    hide Clone, EncodedLength;
    var t := map["k" := "\U{FF}"];
    TextsLength(t);
    TextsCopied(t);
    assert AsObject(t) == map["k" := Str("\U{FF}")];
    CloneOne("k", Str("\U{FF}"));
    ByteDrift();
  }

  lemma ByteDrift()
    ensures EncodedLength(Clone(Str("\U{FF}"))) - EncodedLength(Str("\U{FF}")) == 0 - 3
  {
    assert Coerce("\U{FF}") == REPLACEMENT + Coerce("");
    assert Coerce("") == "" && RuneWidth(REPLACEMENT) == 3;
    assert REPLACEMENT[3..] == "" && REPLACEMENT[..3] == REPLACEMENT;
    assert StringLength(REPLACEMENT) == 5;
    assert "\U{FF}"[1..] == "";
  }

  lemma SectionDrifts(revision: nat)
    ensures ObjectLength(CloneObject(Stamp(DRIFTING, revision))) - ObjectLength(Stamp(DRIFTING, revision)) == 1
    ensures ObjectLength(CloneObject(Stamp(THRICE_DRIFTING, revision))) - ObjectLength(Stamp(THRICE_DRIFTING, revision)) == 3
    ensures ObjectLength(CloneObject(Stamp(BINARY, revision))) - ObjectLength(Stamp(BINARY, revision)) == 0 - 3
  {
    LongDrift();
    SectionsNest();
    hide EncodedLength, Clone, CloneObject, Stamp, NestsWithin;
    CloneOne("replicas", LONG);
    SectionDrift("spec", Obj(map["replicas" := LONG]), revision);
    CloneOne("port", LONG);
    ThreeItems(PORT);
    ThreeItems(Clone(PORT));
    CloneOne("ports", Arr([PORT, PORT, PORT]));
    SectionDrift("spec", Obj(map["ports" := Arr([PORT, PORT, PORT])]), revision);
    BinaryText();
    SectionDrift("data", BINARY["data"], revision);
  }

  lemma SectionsNest()
    ensures NestsWithin(Obj(map["replicas" := LONG]), MAX_NESTING - 1)
    ensures NestsWithin(Obj(map["ports" := Arr([PORT, PORT, PORT])]), MAX_NESTING - 1)
    ensures NestsWithin(BINARY["data"], MAX_NESTING - 1)
  {
    assert NestsWithin(PORT, MAX_NESTING - 3);
    assert NestsWithin(Arr([PORT, PORT, PORT]), MAX_NESTING - 2);
  }

  lemma LongDrift()
    ensures EncodedLength(Clone(LONG)) - EncodedLength(LONG) == 1
  {
  }

  lemma SectionLength(section: string, x: Json, revision: nat)
    requires section != "metadata" && |section| <= 10 && EncodedLength(x) <= 500 && revision < 10000
    ensures ObjectLength(Stamp(map[section := x], revision)) <= 1000
  {
    hide EncodedLength, Decimal, StringLength;
    var version: Object := map["resourceVersion" := Str(Decimal(revision))];
    assert Stamp(map[section := x], revision) == map[section := x, "metadata" := Obj(version)];
    PairLength(section, x, "metadata", Obj(version));
    SingletonLength("resourceVersion", Str(Decimal(revision)));
    DecimalLength(revision, 4);
    StringLengthBound(section);
    StringLengthBound("metadata");
    StringLengthBound("resourceVersion");
    TextValueLength(Decimal(revision));
  }

  lemma TextValueLength(text: string)
    ensures EncodedLength(Str(text)) == StringLength(text) <= 2 + 6 * |text|
  {
    StringLengthBound(text);
  }

  lemma LongLength()
    ensures EncodedLength(LONG) == 19
  {
  }

  lemma OneLength(k: string, x: Json)
    ensures EncodedLength(Obj(map[k := x])) <= 5 + 6 * |k| + EncodedLength(x)
  {
    hide EncodedLength, StringLength;
    SingletonLength(k, x);
    StringLengthBound(k);
  }

  lemma BinaryLength()
    ensures EncodedLength(BINARY["data"]) <= 100
  {
    hide EncodedLength, StringLength;
    TextsLength(map["k" := "\U{FF}"]);
    assert AsObject(map["k" := "\U{FF}"]) == map["k" := Str("\U{FF}")];
    OneLength("k", Str("\U{FF}"));
    TextValueLength("\U{FF}");
  }

  lemma PortsLength()
    ensures EncodedLength(THRICE_DRIFTING["spec"]) <= 500
  {
    hide EncodedLength;
    LongLength();
    OneLength("port", LONG);
    ThreeItems(PORT);
    OneLength("ports", Arr([PORT, PORT, PORT]));
  }

  lemma SmallSections(revision: nat)
    requires revision < 10000
    ensures ObjectLength(Stamp(DRIFTING, revision)) <= 1000
    ensures ObjectLength(Stamp(THRICE_DRIFTING, revision)) <= 1000
    ensures ObjectLength(Stamp(BINARY, revision)) <= 1000
  {
    hide EncodedLength, ObjectLength, Stamp;
    LongLength();
    OneLength("replicas", LONG);
    SectionLength("spec", DRIFTING["spec"], revision);
    PortsLength();
    SectionLength("spec", THRICE_DRIFTING["spec"], revision);
    BinaryLength();
    SectionLength("data", BINARY["data"], revision);
  }

  /** While there is room an object under a new key is accepted, and moves the counter's error by its drift. */
  lemma SmallAdded(s: Store, key: ObjectKey, obj: Object)
    requires key !in s.objects && |s.objects| < MAX_STORED_OBJECTS && s.bytes <= 10000
    requires ObjectLength(Stamp(obj, s.revision + 1)) <= MAX_STORED_OBJECT_BYTES
    ensures var t := Put(s, key, obj, Added);
      var drift := ObjectLength(CloneObject(Stamp(obj, s.revision + 1))) - ObjectLength(Stamp(obj, s.revision + 1));
      && Accepted(s, OpPut(key, obj, Added)) && t.revision == s.revision + 1
      && t.bytes == s.bytes + ObjectLength(Stamp(obj, s.revision + 1))
      && t.objects == s.objects[key := Kept(s, obj)]
      && Held(t.objects) - t.bytes == Held(s.objects) - s.bytes + drift
  {
    hide Stamp, ObjectLength, CloneObject, Put, Held;
    var op := OpPut(key, obj, Added);
    assert Accepted(s, op);
    PutEffect(s, key, obj, Added);
    StepHeld(s, op);
  }

  lemma FreshHolds()
    ensures Held(FRESH.objects) == 0
  {
    assert Lengths(FRESH.objects) == map[];
  }

  lemma RunOne(op: Op)
    ensures Run(FRESH, [op]) == Step(FRESH, op)
  {
    hide Step;
    assert [op][..0] == [] && Run(FRESH, []) == FRESH;
  }

  lemma RunTwo(a: Op, b: Op)
    ensures Run(FRESH, [a, b]) == Step(Run(FRESH, [a]), b)
    ensures [a, b][..1] == [a]
  {
    hide Step;
  }

  /** The counter can fall short: this object is charged one byte less than it takes. */
  lemma AccountingCanDrift(key: ObjectKey)
    ensures var t := Run(FRESH, [OpPut(key, DRIFTING, Added)]); Held(t.objects) == t.bytes + 1
  {
    hide ObjectLength, CloneObject, Stamp, Put, Held, Kept;
    SmallSections(1001);
    SectionDrifts(1001);
    FreshHolds();
    SmallAdded(FRESH, key, DRIFTING);
    RunOne(OpPut(key, DRIFTING, Added));
  }

  /** It can also count too much, for good: with this object deleted, three bytes of nothing remain. */
  lemma InvalidTextOverstates(key: ObjectKey)
    ensures var t := Run(FRESH, [OpPut(key, BINARY, Added)]); Held(t.objects) == t.bytes - 3
    ensures var u := Run(FRESH, [OpPut(key, BINARY, Added), OpDelete(key)]); u.objects == map[] && u.bytes == 3
  {
    hide ObjectLength, CloneObject, Stamp, Put, Delete, Held, Kept, StoredLength;
    var put := OpPut(key, BINARY, Added);
    SmallSections(1001);
    SectionDrifts(1001);
    FreshHolds();
    SmallAdded(FRESH, key, BINARY);
    RunOne(put);
    RunTwo(put, OpDelete(key));
    var t := Run(FRESH, [put]);
    DeleteEffect(t, key);
    StepHeld(t, OpDelete(key));
    assert t.objects - {key} == FRESH.objects;
  }

  /**
   * Two drifts can cancel, so a counter that is exact at the end proves nothing about the run:
   * it is wrong after the first of these puts and right after the second.
   */
  lemma DriftsCanCancel(a: ObjectKey, b: ObjectKey)
    requires a != b
    ensures var ops := [OpPut(a, THRICE_DRIFTING, Added), OpPut(b, BINARY, Added)];
      !ExactAt(FRESH, ops, 1) && ExactAt(FRESH, ops, 2) && !KeepsLengths(FRESH, ops)
  {
    hide Put, Held, KeepsLengths;
    var first, second := OpPut(a, THRICE_DRIFTING, Added), OpPut(b, BINARY, Added);
    var ops := [first, second];
    RunOne(first);
    RunTwo(first, second);
    FirstDrifts(a);
    SecondDriftsBack(Put(FRESH, a, THRICE_DRIFTING, Added), b);
    assert ops[..2] == ops;
    AccountingExact(ops);
  }

  lemma FirstDrifts(key: ObjectKey)
    ensures var t := Put(FRESH, key, THRICE_DRIFTING, Added);
      && Held(t.objects) == t.bytes + 3
      && t.objects.Keys == {key} && t.bytes <= 1000 && t.revision == 1001
  {
    hide ObjectLength, CloneObject, Stamp, Put, Held, Kept;
    SmallSections(1001);
    SectionDrifts(1001);
    FreshHolds();
    SmallAdded(FRESH, key, THRICE_DRIFTING);
  }

  lemma SecondDriftsBack(s: Store, key: ObjectKey)
    requires key !in s.objects && |s.objects.Keys| <= 1 && s.bytes <= 1000 && s.revision == 1001
    ensures var t := Put(s, key, BINARY, Added); Held(t.objects) - t.bytes == Held(s.objects) - s.bytes - 3
  {
    hide ObjectLength, CloneObject, Stamp, Put, Held, Kept;
    SmallSections(1002);
    SectionDrifts(1002);
    assert |s.objects| == |s.objects.Keys|;
    SmallAdded(s, key, BINARY);
  }

  // ----- objects too deep to be decoded again -----

  /** {"a":{"a": ... {} ... }} */
  function Tower(n: nat): Json {
    if n == 0 then Obj(map[]) else Obj(map["a" := Tower(n - 1)])
  }

  lemma {:induction false} TowerNests(n: nat, depth: nat)
    ensures NestsWithin(Tower(n), depth) <==> n < depth
    decreases n
  {
    if n > 0 && depth > 0 {
      TowerNests(n - 1, depth - 1);
      var m := map["a" := Tower(n - 1)];
      MembersNest(m, depth);
      assert "a" in m && m["a"] == Tower(n - 1);
    }
  }

  lemma {:induction false} TowerLength(n: nat)
    ensures EncodedLength(Tower(n)) == 2 + 6 * n
  {
    hide EncodedLength, StringLength;
    if n == 0 {
      NothingLength();
    } else {
      TowerLength(n - 1);
      SingletonLength("a", Tower(n - 1));
      OneLetterLength();
    }
  }

  lemma OneLetterLength()
    ensures StringLength("a") == 3
  {
    assert "a"[1..] == "";
  }

  lemma DeepLength(n: nat, revision: nat)
    requires revision < 10000
    ensures 6 * n <= ObjectLength(Stamp(map["spec" := Tower(n)], revision)) <= 6 * n + 1000
  {
    hide EncodedLength, Decimal, StringLength, Tower;
    TowerLength(n);
    var version: Object := map["resourceVersion" := Str(Decimal(revision))];
    assert Stamp(map["spec" := Tower(n)], revision) == map["spec" := Tower(n), "metadata" := Obj(version)];
    PairLength("spec", Tower(n), "metadata", Obj(version));
    SingletonLength("resourceVersion", Str(Decimal(revision)));
    DecimalLength(revision, 4);
    StringLengthBound("spec");
    StringLengthBound("metadata");
    StringLengthBound("resourceVersion");
    TextValueLength(Decimal(revision));
  }

  lemma DeepUnreadable(n: nat)
    requires n >= MAX_NESTING - 1
    ensures !ReadsBack(map["spec" := Tower(n)])
  {
    TowerNests(n, MAX_NESTING - 1);
    hide Tower;
    var stamped := Stamp(map["spec" := Tower(n)], 0);
    assert stamped["spec"] == Tower(n);
    MembersNest(stamped, MAX_NESTING);
  }

  /**
   * A patch path of some ten thousand segments makes such an object. It is accepted, stored as
   * an empty object without a version, and what it was charged stays in the counter for good.
   */
  lemma DeepObjectIsEmptied(key: ObjectKey, n: nat)
    requires MAX_NESTING - 1 <= n <= 40000
    ensures var put := OpPut(key, map["spec" := Tower(n)], Added);
      var t, u := Run(FRESH, [put]), Run(FRESH, [put, OpDelete(key)]);
      && t.objects == map[key := map[]] && t.bytes >= 6 * n
      && u.objects == map[] && u.bytes == t.bytes - 2
  {
    var obj: Object := map["spec" := Tower(n)];
    DeepLength(n, 1001);
    DeepUnreadable(n);
    hide Tower, ObjectLength, CloneObject, Stamp, Put, Delete, Held, Kept, ReadsBack;
    StampVersion(obj, 1001);
    KeptIs(FRESH, obj);
    SmallAdded(FRESH, key, obj);
    var put := OpPut(key, obj, Added);
    RunOne(put);
    RunTwo(put, OpDelete(key));
    var t := Run(FRESH, [put]);
    assert t.objects == map[key := map[]];
    DeleteEffect(t, key);
    NothingStored(t, key);
    assert t.objects - {key} == map[];
  }

  lemma KeptIs(s: Store, obj: Object)
    ensures Kept(s, obj) == CloneObject(Stamp(obj, s.revision + 1))
  {
  }

  lemma NothingStored(s: Store, key: ObjectKey)
    requires key in s.objects && s.objects[key] == map[]
    ensures StoredLength(s.objects, key) == 2
  {
    NothingLength();
  }

  /** Every stored object carries a version. */
  ghost predicate Versioned(s: Store) {
    forall k :: k in s.objects ==> VersionText(s.objects[k]).1
  }

  ghost predicate ReadableOp(s: Store, op: Op) {
    Accepted(s, op) ==> ReadsBack(op.obj)
  }

  ghost predicate ReadableOps(s: Store, ops: seq<Op>) {
    ops != [] ==> ReadableOps(s, ops[..|ops| - 1]) && ReadableOp(Run(s, ops[..|ops| - 1]), ops[|ops| - 1])
  }

  ghost predicate VersionedAt(s: Store, ops: seq<Op>, n: nat)
    requires n <= |ops|
  {
    Versioned(Run(s, ops[..n]))
  }

  lemma StepVersioned(s: Store, op: Op)
    requires Versioned(s)
    ensures Versioned(Step(s, op)) <==> ReadableOp(s, op)
  {
    hide Put, Delete, Kept, Stamp, VersionText, PutVerdict, ReadsBack;
    match op
    case OpPut(key, obj, kind) =>
      if PutVerdict(s, key, obj, kind) == Stored {
        PutEffect(s, key, obj, kind);
        StampVersion(obj, s.revision + 1);
        KeptIs(s, obj);
        EmptyHasNoVersion();
        assert Put(s, key, obj, kind).objects[key] == Kept(s, obj);
      } else {
        PutRefused(s, key, obj, kind);
      }
    case OpDelete(key) =>
      DeleteEffect(s, key);
    case _ =>
  }

  /** All stored objects carry a version throughout a run exactly when each accepted put can be decoded again. */
  lemma {:induction false} VersionsThroughout(ops: seq<Op>)
    ensures ReadableOps(FRESH, ops) <==> forall n :: 0 <= n <= |ops| ==> VersionedAt(FRESH, ops, n)
  {
    hide Versioned, ReadableOp, Step;
    if ops == [] {
      assert ops[..0] == [];
      NoneUnversioned();
    } else {
      var before, op := ops[..|ops| - 1], ops[|ops| - 1];
      VersionsThroughout(before);
      assert ops[..|ops|] == ops && before[..|before|] == before;
      forall n | 0 <= n <= |before| ensures VersionedAt(FRESH, ops, n) <==> VersionedAt(FRESH, before, n) {
        assert ops[..n] == before[..n];
      }
      assert VersionedAt(FRESH, before, |before|) <==> Versioned(Run(FRESH, before));
      assert VersionedAt(FRESH, ops, |ops|) <==> Versioned(Run(FRESH, ops));
      if Versioned(Run(FRESH, before)) {
        StepVersioned(Run(FRESH, before), op);
      }
    }
  }

  lemma NoneUnversioned()
    ensures Versioned(FRESH)
  {
  }

  // ----- generated names -----

  ghost function NameOf(s: Store, op: Op): seq<string> {
    if op.OpNextName? && CanGenerate(s, op.prefix) then [GeneratedName(s, op.prefix)] else []
  }

  ghost function NamesOf(s: Store, ops: seq<Op>): seq<string> {
    if ops == [] then []
    else NamesOf(s, ops[..|ops| - 1]) + NameOf(Run(s, ops[..|ops| - 1]), ops[|ops| - 1])
  }

  /** `name` carries the number of one of the first `n` successes. */
  ghost predicate GeneratedBy(name: string, n: nat) {
    exists prefix: string, i: nat :: i <= n && name == prefix + Padded(i, SUFFIX_WIDTH)
  }

  /** The counter goes up by one exactly when it can and the name it makes is valid; the name ends in its new value. */
  lemma NamesCountUp(s: Store, prefix: string)
    requires s.generatedNames <= MAX_UINT64
    ensures var name, t := GeneratedName(s, prefix), NextName(s, prefix);
      && prefix <= name && DecimalValue(name[|prefix|..]) == s.generatedNames + 1
      && (s.generatedNames < MAX_UINT64 ==> |name| == |prefix| + 20)
      && t.generatedNames == s.generatedNames + (if s.generatedNames < MAX_UINT64 && DnsSubdomain(name) then 1 else 0)
      && t == s.(generatedNames := t.generatedNames)
  {
    hide DnsSubdomain;
    var n := s.generatedNames + 1;
    assert GeneratedName(s, prefix)[|prefix|..] == Padded(n, SUFFIX_WIDTH);
    PaddedValue(n, SUFFIX_WIDTH);
    if n <= MAX_UINT64 {
      SuffixWidth(n);
    }
    hide Padded;
  }

  lemma PaddedValue(n: nat, width: nat)
    ensures DecimalValue(Padded(n, width)) == n
  {
    DecimalRoundTrip(n);
    if |Decimal(n)| < width {
      ZerosAddNothing(width - |Decimal(n)|, Decimal(n));
    }
  }

  lemma SuffixWidth(n: nat)
    requires n <= MAX_UINT64
    ensures |Padded(n, SUFFIX_WIDTH)| == SUFFIX_WIDTH
  {
    assert Power10(20) == 100_000_000_000_000_000_000 by {
      assert Power10(4) == 10_000;
      assert Power10(8) == 100_000_000;
      assert Power10(12) == 1_000_000_000_000;
      assert Power10(16) == 10_000_000_000_000_000;
    }
    PaddedLength(n, SUFFIX_WIDTH);
  }

  lemma SuffixDecides(p: string, m: nat, q: string, n: nat)
    requires m <= MAX_UINT64 && n <= MAX_UINT64
    requires p + Padded(m, SUFFIX_WIDTH) == q + Padded(n, SUFFIX_WIDTH)
    ensures m == n
  {
    SuffixWidth(m);
    SuffixWidth(n);
    var whole := p + Padded(m, SUFFIX_WIDTH);
    assert whole[|whole| - SUFFIX_WIDTH..] == Padded(m, SUFFIX_WIDTH);
    assert (q + Padded(n, SUFFIX_WIDTH))[|whole| - SUFFIX_WIDTH..] == Padded(n, SUFFIX_WIDTH);
    PaddedInjective(m, n, SUFFIX_WIDTH);
  }

  lemma StepNames(s: Store, op: Op)
    requires s.generatedNames <= MAX_UINT64
    ensures s.generatedNames <= Step(s, op).generatedNames <= MAX_UINT64
    ensures NameOf(s, op) != [] ==> Step(s, op).generatedNames == s.generatedNames + 1
  {
    match op
    case OpPut(key, obj, kind) =>
      if PutVerdict(s, key, obj, kind) == Stored {
        PutEffect(s, key, obj, kind);
        hide Put;
      }
    case OpDelete(key) =>
      DeleteEffect(s, key);
      hide Delete;
    case _ =>
  }

  /** No run generates a name twice, whatever the prefixes. */
  lemma {:induction false} NamesDistinct(s: Store, ops: seq<Op>)
    requires s.generatedNames <= MAX_UINT64
    ensures Run(s, ops).generatedNames <= MAX_UINT64
    ensures forall i :: 0 <= i < |NamesOf(s, ops)| ==> GeneratedBy(NamesOf(s, ops)[i], Run(s, ops).generatedNames)
    ensures forall i, j :: 0 <= i < j < |NamesOf(s, ops)| ==> NamesOf(s, ops)[i] != NamesOf(s, ops)[j]
  {
    if ops != [] {
      var before, op := ops[..|ops| - 1], ops[|ops| - 1];
      NamesDistinct(s, before);
      var t := Run(s, before);
      var u := Run(s, ops);
      StepNames(t, op);
      hide Step, CanGenerate;
      var names := NamesOf(s, before);
      forall i | 0 <= i < |names| ensures GeneratedBy(names[i], u.generatedNames) {
        var prefix: string, n: nat :| n <= t.generatedNames && names[i] == prefix + Padded(n, SUFFIX_WIDTH);
      }
      if NameOf(t, op) != [] {
        NewNameDiffers(names, t, op.prefix);
      }
    }
  }

  lemma NewNameDiffers(names: seq<string>, t: Store, prefix: string)
    requires t.generatedNames < MAX_UINT64
    requires forall i :: 0 <= i < |names| ==> GeneratedBy(names[i], t.generatedNames)
    ensures GeneratedBy(GeneratedName(t, prefix), t.generatedNames + 1)
    ensures GeneratedName(t, prefix) !in names
  {
    var name := GeneratedName(t, prefix);
    forall i | 0 <= i < |names| ensures names[i] != name {
      var p: string, n: nat :| n <= t.generatedNames && names[i] == p + Padded(n, SUFFIX_WIDTH);
      if names[i] == name {
        SuffixDecides(p, n, prefix, t.generatedNames + 1);
      }
    }
  }
}
