/** Paged lists over the store: which objects match, in what order, and where a page ends. */
module Paging {
  import opened Json
  import opened Order
  import opened Selectors
  import opened StoreModel

  const MAX_LIST_PAGE_BYTES := 0x10_0000
  const MAX_LIST_PAGE_ITEMS := 100
  const MAX_LIST_LIMIT := 1000

  predicate Picks(scope: Scope, labels: seq<Requirement>, fields: seq<Requirement>, key: ObjectKey, obj: Object) {
    InScope(scope, key) && Matches(obj, labels, fields)
  }

  ghost function Chosen(objects: map<ObjectKey, Object>, scope: Scope, labels: seq<Requirement>, fields: seq<Requirement>): (keys: set<ObjectKey>)
    ensures keys <= objects.Keys
  {
    set key | key in objects && Picks(scope, labels, fields, key, objects[key])
  }

  predicate MatchesAt(s: Store, scope: Scope, labels: seq<Requirement>, fields: seq<Requirement>, p: Place) {
    KeyAt(scope, p) in s.objects && Picks(scope, labels, fields, KeyAt(scope, p), s.objects[KeyAt(scope, p)])
  }

  function Places(s: Store): set<Place> {
    set key | key in s.objects :: PlaceOf(key)
  }

  /** The places of the matching objects, each once, in (namespace, name) order. */
  ghost function Matching(s: Store, scope: Scope, labels: seq<Requirement>, fields: seq<Requirement>): (ps: seq<Place>)
    ensures Sorted(ps) && AllStored(s, scope, ps)
    ensures forall p :: p in ps <==> MatchesAt(s, scope, labels, fields, p)
  {
    var found := set p | p in Places(s) && MatchesAt(s, scope, labels, fields, p);
    var ps := Ranked(found);
    forall p ensures p in ps <==> MatchesAt(s, scope, labels, fields, p) {
      assert p in ps <==> p in Elements(ps);
      assert PlaceOf(KeyAt(scope, p)) == p;
    }
    assert forall i :: 0 <= i < |ps| ==> ps[i] in ps;
    ps
  }

  lemma MatchingElements(s: Store, scope: Scope, labels: seq<Requirement>, fields: seq<Requirement>, candidates: seq<Place>)
    requires forall p :: p in candidates <==> MatchesAt(s, scope, labels, fields, p)
    ensures Ranked(Elements(candidates)) == Matching(s, scope, labels, fields)
  {
    var ps := Matching(s, scope, labels, fields);
    assert Elements(ps) == Elements(candidates);
    SortedUnique(Ranked(Elements(candidates)), ps);
  }

  ghost predicate AllStored(s: Store, scope: Scope, ps: seq<Place>) {
    forall i :: 0 <= i < |ps| ==> KeyAt(scope, ps[i]) in s.objects
  }

  ghost function Sizes(s: Store, scope: Scope, ps: seq<Place>): (sizes: seq<nat>)
    requires AllStored(s, scope, ps)
    ensures |sizes| == |ps| && forall i :: 0 <= i < |ps| ==> sizes[i] == ObjectLength(s.objects[KeyAt(scope, ps[i])])
  {
    seq(|ps|, i requires 0 <= i < |ps| => ObjectLength(s.objects[KeyAt(scope, ps[i])]))
  }

  /** Copies of the objects at ps[from..to]. */
  ghost function Items(s: Store, scope: Scope, ps: seq<Place>, from: nat, to: nat): (items: seq<Object>)
    requires AllStored(s, scope, ps) && from <= to <= |ps|
    ensures |items| == to - from
  {
    seq(to - from, i requires 0 <= i < to - from => CloneObject(s.objects[KeyAt(scope, ps[from + i])]))
  }

  lemma ItemsSnoc(s: Store, scope: Scope, ps: seq<Place>, from: nat, to: nat)
    requires AllStored(s, scope, ps) && from <= to < |ps|
    ensures Items(s, scope, ps, from, to + 1) == Items(s, scope, ps, from, to) + [CloneObject(s.objects[KeyAt(scope, ps[to])])]
  {
  }

  /** Where a page that already holds `count` items of `used` bytes stops when it goes on from `i`. */
  function Extend(sizes: seq<nat>, i: nat, count: nat, used: nat, most: nat): (end: nat)
    requires i <= |sizes|
    ensures i <= end <= |sizes|
    decreases |sizes| - i
  {
    if i == |sizes| || count >= most then i
    else if used + sizes[i] > MAX_LIST_PAGE_BYTES && count > 0 then i
    else Extend(sizes, i + 1, count + 1, used + sizes[i], most)
  }

  lemma ExtendStep(sizes: seq<nat>, i: nat, count: nat, used: nat, most: nat)
    requires i < |sizes| && count < most
    requires used + sizes[i] <= MAX_LIST_PAGE_BYTES || count == 0
    ensures Extend(sizes, i, count, used, most) == Extend(sizes, i + 1, count + 1, used + sizes[i], most)
  {
  }

  lemma ExtendStop(sizes: seq<nat>, i: nat, count: nat, used: nat, most: nat)
    requires i <= |sizes|
    requires i == |sizes| || count >= most || (used + sizes[i] > MAX_LIST_PAGE_BYTES && count > 0)
    ensures Extend(sizes, i, count, used, most) == i
  {
  }

  ghost function Sum(sizes: seq<nat>, from: nat, upto: nat): nat
    requires from <= upto <= |sizes|
  {
    if from == upto then 0 else Sum(sizes, from, upto - 1) + sizes[upto - 1]
  }

  ghost predicate Fits(sizes: seq<nat>, from: nat, upto: nat, most: nat)
    requires from <= upto <= |sizes|
  {
    upto - from <= most && (upto - from <= 1 || Sum(sizes, from, upto) <= MAX_LIST_PAGE_BYTES)
  }

  lemma {:induction false} SumGrows(sizes: seq<nat>, from: nat, mid: nat, upto: nat)
    requires from <= mid <= upto <= |sizes|
    ensures Sum(sizes, from, mid) <= Sum(sizes, from, upto)
    decreases upto
  {
    if mid < upto {
      SumGrows(sizes, from, mid, upto - 1);
    }
  }

  /** A page ends at the largest end that fits: by count, and by bytes unless it holds one item. */
  lemma {:induction false} ExtendIsLargest(sizes: seq<nat>, from: nat, i: nat, most: nat)
    requires from <= i <= |sizes| && most >= 1 && Fits(sizes, from, i, most)
    ensures var end := Extend(sizes, i, i - from, Sum(sizes, from, i), most);
      Fits(sizes, from, end, most) && forall e :: end < e <= |sizes| ==> !Fits(sizes, from, e, most)
    decreases |sizes| - i
  {
    if i < |sizes| {
      assert Sum(sizes, from, i + 1) == Sum(sizes, from, i) + sizes[i];
      if i - from < most && (Sum(sizes, from, i + 1) <= MAX_LIST_PAGE_BYTES || i == from) {
        ExtendIsLargest(sizes, from, i + 1, most);
      } else {
        forall e | i < e <= |sizes| ensures !Fits(sizes, from, e, most) {
          SumGrows(sizes, from, i + 1, e);
        }
      }
    }
  }

  function PageLimit(limit: int): (most: nat)
    ensures 1 <= most <= MAX_LIST_PAGE_ITEMS
  {
    if limit <= 0 || limit > MAX_LIST_PAGE_ITEMS then MAX_LIST_PAGE_ITEMS else limit
  }

  ghost function PageEnd(s: Store, scope: Scope, labels: seq<Requirement>, fields: seq<Requirement>, offset: nat, limit: int): (end: nat)
    requires offset <= |Matching(s, scope, labels, fields)|
    ensures offset <= end <= |Matching(s, scope, labels, fields)|
  {
    Extend(Sizes(s, scope, Matching(s, scope, labels, fields)), offset, 0, 0, PageLimit(limit))
  }
}
