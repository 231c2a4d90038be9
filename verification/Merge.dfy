/** The merge patch as the API applies it, against the one RFC 7396 defines. */
module Merge {
  import opened Json

  /** mergeObject: members of `patch` merged into `destination`. */
  function Merged(destination: Object, patch: Json): Object
    requires patch.Obj?
    decreases patch
  {
    map k | k in destination.Keys + patch.members.Keys && !(k in patch.members && patch.members[k] == Null) ::
      if k !in patch.members then destination[k]
      else if patch.members[k].Obj? && k in destination && destination[k].Obj?
      then Obj(Merged(destination[k].members, patch.members[k]))
      else patch.members[k]
  }

  /** The loop over the patch's members, in whatever order the map yields them. */
  method MergeObject(destination: Object, patch: Json) returns (r: Object)
    requires patch.Obj?
    ensures r == Merged(destination, patch)
    decreases patch
  {
    ghost var goal := Merged(destination, patch);
    r := destination;
    var pending := patch.members.Keys;
    while pending != {}
      invariant pending <= patch.members.Keys
      invariant forall k :: k in r <==> if k in pending || k !in patch.members then k in destination else k in goal
      invariant forall k :: k in r ==> r[k] == if k in pending || k !in patch.members then destination[k] else goal[k]
      decreases pending
    {
      var key :| key in pending;
      pending := pending - {key};
      var value := patch.members[key];
      if value == Null {
        r := r - {key};
        continue;
      }
      if value.Obj? && key in r && r[key].Obj? {
        var nested := MergeObject(r[key].members, value);
        r := r[key := Obj(nested)];
        continue;
      }
      r := r[key := value];
    }
  }

  /** MergePatch of section 2 of RFC 7396; a target that is not an object counts as an empty one. */
  function MergePatch(target: Json, patch: Json): Json
    decreases patch
  {
    if !patch.Obj? then patch
    else
      var t := ObjectMap(target);
      Obj(map k | k in t.Keys + patch.members.Keys && !(k in patch.members && patch.members[k] == Null) ::
        if k !in patch.members then t[k] else MergePatch(Member(t, k), patch.members[k]))
  }

  /** The JSON value that a Go value stands for: a typed map is an object like any other. */
  function AsJson(j: Json): Json {
    match j
    case Arr(xs) => Arr(seq(|xs|, i requires 0 <= i < |xs| => AsJson(xs[i])))
    case Obj(m) => Obj(map k | k in m :: AsJson(m[k]))
    case Texts(t) => Obj(AsObject(t))
    case _ => j
  }

  lemma {:induction false} UntypedIsJson(j: Json)
    requires Untyped(j)
    ensures AsJson(j) == j
  {
    match j
    case Arr(xs) =>
      forall i | 0 <= i < |xs| ensures AsJson(xs[i]) == xs[i] {
        UntypedIsJson(xs[i]);
      }
    case Obj(m) =>
      forall k | k in m ensures AsJson(m[k]) == m[k] {
        UntypedIsJson(m[k]);
      }
    case _ =>
  }

  /** No object in `j`, reached through objects, has a null member. */
  predicate NoNullMembers(j: Json) {
    j.Obj? ==> forall k :: k in j.members ==> j.members[k] != Null && NoNullMembers(j.members[k])
  }

  /** Every object of the patch that lands where the destination has none is free of null members. */
  predicate LandsClean(destination: Object, patch: Json)
    requires patch.Obj?
    decreases patch
  {
    forall k :: k in patch.members && patch.members[k].Obj? ==>
      if k in destination && destination[k].Obj? then LandsClean(destination[k].members, patch.members[k])
      else NoNullMembers(patch.members[k])
  }

  /** Every typed map of the patch that lands on an object names all its members. */
  predicate CoversTyped(destination: Object, patch: Json)
    requires patch.Obj?
    decreases patch
  {
    forall k :: k in patch.members && k in destination && destination[k].Obj? ==>
      && (patch.members[k].Obj? ==> CoversTyped(destination[k].members, patch.members[k]))
      && (patch.members[k].Texts? ==> destination[k].members.Keys <= patch.members[k].texts.Keys)
  }

  lemma TextReplaces(target: Json, text: string)
    ensures MergePatch(target, Str(text)) == Str(text)
  {
  }

  /** The members of a merge onto nothing, or onto something that is no object. */
  lemma FreshMembers(target: Json, p: Json)
    requires !target.Obj? && p.Obj?
    ensures MergePatch(target, p).Obj?
    ensures MergePatch(target, p).members == map k | k in p.members && p.members[k] != Null :: MergePatch(Null, p.members[k])
  {
  }

  lemma AsJsonMembers(m: Object)
    ensures AsJson(Obj(m)) == Obj(map k | k in m :: AsJson(m[k]))
    ensures forall k :: k in m ==> (AsJson(m[k]) == Null <==> m[k] == Null)
  {
  }

  lemma {:induction false} FreshMerge(target: Json, patch: Json)
    requires !target.Obj?
    ensures MergePatch(target, AsJson(patch)) == AsJson(patch) <==> NoNullMembers(patch)
    decreases patch
  {
    match patch
    case Obj(m) =>
      AsJsonMembers(m);
      FreshMembers(target, AsJson(patch));
      forall k | k in m ensures MergePatch(Null, AsJson(m[k])) == AsJson(m[k]) <==> NoNullMembers(m[k]) {
        FreshMerge(Null, m[k]);
      }
      FreshDecides(m, target);
    case Texts(t) =>
      FreshMembers(target, Obj(AsObject(t)));
      forall k | k in t ensures MergePatch(Null, Str(t[k])) == Str(t[k]) {
        TextReplaces(Null, t[k]);
      }
      assert MergePatch(target, AsJson(patch)).members == AsObject(t);
    case _ =>
  }

  lemma FreshKeeps(target: Json, p: Object)
    requires !target.Obj?
    ensures MergePatch(target, Obj(p)) == Obj(p) <==> forall k :: k in p ==> p[k] != Null && MergePatch(Null, p[k]) == p[k]
  {
    FreshMembers(target, Obj(p));
    hide MergePatch;
    var r := MergePatch(target, Obj(p)).members;
    if r == p {
      forall k | k in p ensures p[k] != Null && MergePatch(Null, p[k]) == p[k] {
        assert k in r;
      }
    }
  }

  lemma FreshDecides(m: Object, target: Json)
    requires !target.Obj?
    requires forall k :: k in m ==> (MergePatch(Null, AsJson(m[k])) == AsJson(m[k]) <==> NoNullMembers(m[k]))
    ensures MergePatch(target, AsJson(Obj(m))) == AsJson(Obj(m)) <==> NoNullMembers(Obj(m))
  {
    AsJsonMembers(m);
    var p := AsJson(Obj(m)).members;
    FreshKeeps(target, p);
    hide AsJson, MergePatch;
    assert forall k :: k in m ==> p[k] == AsJson(m[k]);
  }

  /** A typed map on an object: mergeObject replaces what MergePatch merges. */
  lemma TypedMerge(destination: Object, t: map<string, string>)
    ensures MergePatch(Obj(destination), Obj(AsObject(t))) == Obj(AsObject(t)) <==> destination.Keys <= t.Keys
  {
    var r := MergePatch(Obj(destination), Obj(AsObject(t))).members;
    assert r.Keys == destination.Keys + t.Keys;
    forall k | k in t ensures r[k] == Str(t[k]) {
      TextReplaces(Member(destination, k), t[k]);
    }
    hide MergePatch;
    assert r == AsObject(t) <==> r.Keys == t.Keys;
  }

  /** The parts of the two conditions that concern one member. */
  predicate KeyClean(destination: Object, patch: Json, k: string)
    requires patch.Obj?
  {
    k in patch.members && patch.members[k].Obj? ==>
      if k in destination && destination[k].Obj? then LandsClean(destination[k].members, patch.members[k])
      else NoNullMembers(patch.members[k])
  }

  predicate KeyCovered(destination: Object, patch: Json, k: string)
    requires patch.Obj?
  {
    k in patch.members && k in destination && destination[k].Obj? ==>
      && (patch.members[k].Obj? ==> CoversTyped(destination[k].members, patch.members[k]))
      && (patch.members[k].Texts? ==> destination[k].members.Keys <= patch.members[k].texts.Keys)
  }

  /** One member of the two merges. */
  lemma {:induction false} MemberAgrees(destination: Object, patch: Json, k: string)
    requires patch.Obj? && Untyped(Obj(destination)) && k in Merged(destination, patch)
    ensures k in MergePatch(Obj(destination), AsJson(patch)).members
    ensures AsJson(Merged(destination, patch)[k]) == MergePatch(Obj(destination), AsJson(patch)).members[k]
      <==> KeyClean(destination, patch, k) && KeyCovered(destination, patch, k)
    decreases patch, 0
  {
    var m := patch.members;
    if k in destination {
      UntypedIsJson(destination[k]);
    }
    if k in m {
      if k in destination && destination[k].Obj? {
        if m[k].Obj? {
          MergeAgrees(destination[k].members, m[k]);
        } else if m[k].Texts? {
          TypedMerge(destination[k].members, m[k].texts);
        }
      } else {
        FreshMerge(Member(destination, k), m[k]);
      }
    }
  }

  /**
   * mergeObject, on a destination copied out of the store, is RFC 7396's MergePatch exactly when
   * the patch lands clean and its typed maps replace whole objects.
   */
  lemma {:induction false} MergeAgrees(destination: Object, patch: Json)
    requires patch.Obj? && Untyped(Obj(destination))
    ensures AsJson(Obj(Merged(destination, patch))) == MergePatch(Obj(destination), AsJson(patch))
      <==> LandsClean(destination, patch) && CoversTyped(destination, patch)
    decreases patch, 1
  {
    hide Merged, MergePatch, LandsClean, CoversTyped, KeyClean, KeyCovered, Untyped, AsJson;
    var merged, s := Merged(destination, patch), MergePatch(Obj(destination), AsJson(patch));
    MergedKeys(destination, patch);
    AsJsonMembers(merged);
    forall k | k in merged
      ensures AsJson(merged[k]) == s.members[k] <==> KeyClean(destination, patch, k) && KeyCovered(destination, patch, k)
    {
      MemberAgrees(destination, patch, k);
    }
    KeysDecide(destination, patch);
    SameMembers(merged, s.members);
  }

  lemma SameMembers(m: Object, n: Object)
    requires m.Keys == n.Keys
    ensures AsJson(Obj(m)) == Obj(n) <==> forall k :: k in m ==> AsJson(m[k]) == n[k]
  {
    AsJsonMembers(m);
    hide AsJson;
    var r := map k | k in m :: AsJson(m[k]);
    assert r == n <==> forall k :: k in m ==> r[k] == n[k];
  }

  lemma MergedKeys(destination: Object, patch: Json)
    requires patch.Obj?
    ensures MergePatch(Obj(destination), AsJson(patch)).Obj?
    ensures MergePatch(Obj(destination), AsJson(patch)).members.Keys == Merged(destination, patch).Keys
  {
    assert forall k :: k in patch.members ==> (AsJson(patch.members[k]) == Null <==> patch.members[k] == Null);
  }

  /** Members that vanish are nulls, about which neither condition says anything. */
  lemma KeysDecide(destination: Object, patch: Json)
    requires patch.Obj?
    ensures LandsClean(destination, patch) <==> forall k :: k in Merged(destination, patch) ==> KeyClean(destination, patch, k)
    ensures CoversTyped(destination, patch) <==> forall k :: k in Merged(destination, patch) ==> KeyCovered(destination, patch, k)
  {
    var r := Merged(destination, patch);
    assert forall k :: k in patch.members && patch.members[k] != Null ==> k in r;
    assert forall k :: k !in r ==> KeyClean(destination, patch, k) && KeyCovered(destination, patch, k);
    assert LandsClean(destination, patch) <==> forall k :: k in patch.members ==> KeyClean(destination, patch, k);
    assert CoversTyped(destination, patch) <==> forall k :: k in patch.members ==> KeyCovered(destination, patch, k);
    hide Merged, LandsClean, CoversTyped;
  }

  lemma {:induction false} SelfMerge(patch: Json)
    requires patch.Obj?
    ensures Merged(patch.members, patch) == patch.members <==> NoNullMembers(patch)
    decreases patch
  {
    var m, r := patch.members, Merged(patch.members, patch);
    forall k | k in m && m[k].Obj? ensures Merged(m[k].members, m[k]) == m[k].members <==> NoNullMembers(m[k]) {
      SelfMerge(m[k]);
    }
    assert forall k :: k in r <==> k in m && m[k] != Null;
    assert forall k :: k in r ==> r[k] == if m[k].Obj? then Obj(Merged(m[k].members, m[k])) else m[k];
    hide Merged;
    if r == m {
      forall k | k in m ensures m[k] != Null && NoNullMembers(m[k]) {
        assert k in r && r[k] == m[k];
      }
    }
  }

  /** Merging the same patch again changes nothing exactly when it landed clean the first time. */
  lemma {:induction false} MergeIdempotent(destination: Object, patch: Json)
    requires patch.Obj?
    ensures Merged(Merged(destination, patch), patch) == Merged(destination, patch) <==> LandsClean(destination, patch)
    decreases patch
  {
    var m, r := patch.members, Merged(destination, patch);
    var t := Merged(r, patch);
    assert t.Keys == r.Keys;
    forall k | k in r ensures t[k] == r[k] <==> KeyClean(destination, patch, k) {
      if k in m && m[k].Obj? {
        if k in destination && destination[k].Obj? {
          MergeIdempotent(destination[k].members, m[k]);
        } else {
          SelfMerge(m[k]);
        }
      }
    }
    hide Merged;
    assert t == r <==> forall k :: k in r ==> t[k] == r[k];
    assert forall k :: k in m && m[k].Obj? ==> KeyClean(destination, patch, k) <==> (k in r ==> t[k] == r[k]);
  }

  /**
   * What becomes of each member: one the patch does not name stays, one it sets to null goes,
   * an object on an object is merged into it, and anything else takes its place.
   */
  lemma MergedMember(destination: Object, patch: Json, k: string)
    requires patch.Obj?
    ensures var r, m := Merged(destination, patch), patch.members;
      && (k !in m ==> (k in r <==> k in destination) && Member(r, k) == Member(destination, k))
      && (k in m && m[k] == Null ==> k !in r)
      && (k in m && m[k].Obj? && k in destination && destination[k].Obj? ==> k in r && r[k] == Obj(Merged(destination[k].members, m[k])))
      && (k in m && m[k] != Null && !(m[k].Obj? && k in destination && destination[k].Obj?) ==> k in r && r[k] == m[k])
  {
  }

  /** A path leaves the patch at an object that does not name its next member. */
  predicate Untouched(patch: Json, path: seq<string>) {
    patch.Obj? && path != [] && (path[0] !in patch.members || Untouched(patch.members[path[0]], path[1..]))
  }

  /** Whatever the patch does not name, at any depth, reads as before. */
  lemma {:induction false} MergeFrames(destination: Object, patch: Json, path: seq<string>)
    requires Untouched(patch, path) && StaysInside(destination, patch, path)
    ensures AtPath(Obj(Merged(destination, patch)), path) == AtPath(Obj(destination), path)
    decreases |path|
  {
    MergedMember(destination, patch, path[0]);
    if path[0] in patch.members {
      MergeFrames(destination[path[0]].members, patch.members[path[0]], path[1..]);
    }
    hide Merged;
  }

  /** As long as the patch goes along with the path, so does the destination. */
  predicate StaysInside(destination: Object, patch: Json, path: seq<string>)
    requires Untouched(patch, path)
    decreases |path|
  {
    path[0] in patch.members ==>
      path[0] in destination && destination[path[0]].Obj? && StaysInside(destination[path[0]].members, patch.members[path[0]], path[1..])
  }

  // ----- where the two merges part -----

  /** A null below a member that the destination lacks is kept, and removed by a second merge. */
  const NESTED_NULL := Obj(map["spec" := Obj(map["paused" := Null])])

  lemma NestedNullIsKept()
    ensures Obj(Merged(map[], NESTED_NULL)) != MergePatch(Obj(map[]), NESTED_NULL)
    ensures Merged(Merged(map[], NESTED_NULL), NESTED_NULL) != Merged(map[], NESTED_NULL)
  {
    var spec := NESTED_NULL.members["spec"];
    assert !NoNullMembers(spec) by {
      assert spec.members["paused"] == Null;
    }
    assert "spec" in NESTED_NULL.members && !LandsClean(map[], NESTED_NULL);
    MergeIdempotent(map[], NESTED_NULL);
    MergeAgrees(map[], NESTED_NULL);
    NestedNullJson();
    hide Merged, MergePatch, LandsClean;
  }

  lemma NestedNullJson()
    ensures AsJson(NESTED_NULL) == NESTED_NULL && AsJson(Obj(Merged(map[], NESTED_NULL))) == Obj(Merged(map[], NESTED_NULL))
  {
    UntypedIsJson(NESTED_NULL);
    UntypedIsJson(Obj(Merged(map[], NESTED_NULL)));
  }

  /** A ConfigMap patched with a protobuf body loses the entries that the patch does not name. */
  const STORED_MAP: Object := map["data" := Obj(map["old" := Str("1")])]
  const TYPED_PATCH := Obj(map["data" := Texts(map["new" := "2"])])

  lemma TypedPatchReplaces()
    ensures LandsClean(STORED_MAP, TYPED_PATCH)
    ensures AsJson(Obj(Merged(STORED_MAP, TYPED_PATCH))) != MergePatch(Obj(STORED_MAP), AsJson(TYPED_PATCH))
  {
    assert "data" in TYPED_PATCH.members && "old" in STORED_MAP["data"].members;
    assert !CoversTyped(STORED_MAP, TYPED_PATCH);
    MergeAgrees(STORED_MAP, TYPED_PATCH);
    hide Merged, MergePatch, AsJson;
  }
}
