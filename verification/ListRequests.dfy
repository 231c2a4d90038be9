/** The list request: limits, continue tokens, and what a client that follows the tokens collects. */
module ListRequests {
  import opened Text
  import opened Json
  import opened Order
  import opened Selectors
  import opened StoreModel
  import opened Paging
  import opened StoreRuns

  // ----- where a page ends -----

  /** What listPage returns is the longest run of matches that its two limits allow. */
  lemma PageIsLargest(s: Store, scope: Scope, labels: seq<Requirement>, fields: seq<Requirement>, offset: nat, limit: int)
    requires offset <= |Matching(s, scope, labels, fields)|
    ensures var ps := Matching(s, scope, labels, fields);
      var sizes, end := Sizes(s, scope, ps), PageEnd(s, scope, labels, fields, offset, limit);
      && Fits(sizes, offset, end, PageLimit(limit))
      && (forall e :: end < e <= |ps| ==> !Fits(sizes, offset, e, PageLimit(limit)))
      && (offset < |ps| ==> offset < end)
  {
    var sizes := Sizes(s, scope, Matching(s, scope, labels, fields));
    ExtendIsLargest(sizes, offset, offset, PageLimit(limit));
    assert offset < |sizes| ==> Fits(sizes, offset, offset + 1, PageLimit(limit));
  }

  /** What the listing contains, word by word: every stored object of the resource, the namespace if one is given, and the selectors. */
  lemma ListedExactly(s: Store, scope: Scope, labels: seq<Requirement>, fields: seq<Requirement>, p: Place)
    ensures var key := ObjectKey(scope.group, scope.version, scope.resource, p.namespace, p.name);
      p in Matching(s, scope, labels, fields) <==>
        key in s.objects && (p.namespace == scope.namespace || scope.namespace == "") && Matches(s.objects[key], labels, fields)
  {
    hide Matches;
  }

  /** The items of a page are copies of the objects at its places, in order. */
  lemma PageItems(s: Store, scope: Scope, ps: seq<Place>, from: nat, upto: nat, i: nat)
    requires AllStored(s, scope, ps) && from <= upto <= |ps| && i < upto - from
    ensures var key := ObjectKey(scope.group, scope.version, scope.resource, ps[from + i].namespace, ps[from + i].name);
      key in s.objects && |Items(s, scope, ps, from, upto)| == upto - from
      && Items(s, scope, ps, from, upto)[i] == CloneObject(s.objects[key])
  {
    hide CloneObject;
  }

  /**
   * How many items a page has: with a limit from 1 to 100 that many, or all that are left, unless
   * one more would take it past 1 MiB. Any other limit is a limit of 100.
   */
  lemma PageLength(s: Store, scope: Scope, labels: seq<Requirement>, fields: seq<Requirement>, offset: nat, limit: int)
    requires offset <= |Matching(s, scope, labels, fields)|
    ensures var ps := Matching(s, scope, labels, fields);
      var sizes, end := Sizes(s, scope, ps), PageEnd(s, scope, labels, fields, offset, limit);
      var most := if 1 <= limit <= 100 then limit else 100;
      && end - offset <= most && end <= |ps|
      && (end - offset == most || end == |ps| || (end > offset && Sum(sizes, offset, end + 1) > 1048576))
      && (end - offset > 1 ==> Sum(sizes, offset, end) <= 1048576)
      && (!(1 <= limit <= 100) ==> end == PageEnd(s, scope, labels, fields, offset, 100))
  {
    PageIsLargest(s, scope, labels, fields, offset, limit);
    hide Matching, Sizes, Extend;
    var ps := Matching(s, scope, labels, fields);
    var sizes, end := Sizes(s, scope, ps), PageEnd(s, scope, labels, fields, offset, limit);
    assert end < |ps| ==> !Fits(sizes, offset, end + 1, PageLimit(limit));
  }

  /** The whole listing fits one page exactly when it has at most 100 items of at most 1 MiB. */
  lemma OnePage(s: Store, scope: Scope, labels: seq<Requirement>, fields: seq<Requirement>)
    ensures var ps := Matching(s, scope, labels, fields);
      PageEnd(s, scope, labels, fields, 0, MAX_LIST_PAGE_ITEMS) == |ps| <==>
      Fits(Sizes(s, scope, ps), 0, |ps|, MAX_LIST_PAGE_ITEMS)
  {
    PageIsLargest(s, scope, labels, fields, 0, MAX_LIST_PAGE_ITEMS);
  }

  // ----- the request -----

  /** The decoded continue parameter; `Empty` also ends a listing. */
  datatype Token = Empty | Garbled | Continue(version: string, identity: string, offset: int)

  datatype LimitParam = Absent | Malformed | Given(n: int)

  datatype Query = Query(scope: Scope, labelSelector: string, fieldSelector: string)

  datatype Reply =
    | Page(version: string, items: seq<Object>, next: Token, remaining: nat)
    | BadRequest
    | Expired

  /** The text whose digest binds a token to its query. */
  function Identity(q: Query): string {
    Join([q.scope.group, q.scope.version, q.scope.namespace, q.scope.resource, q.labelSelector, q.fieldSelector], '\0')
  }

  predicate ValidLimit(p: LimitParam) {
    p.Absent? || (p.Given? && 0 <= p.n <= MAX_LIST_LIMIT)
  }

  function LimitOf(p: LimitParam): int {
    if p.Given? && 0 < p.n <= MAX_LIST_PAGE_ITEMS then p.n else MAX_LIST_PAGE_ITEMS
  }

  ghost function Listed(s: Store, q: Query): (ps: seq<Place>)
    ensures Sorted(ps) && AllStored(s, q.scope, ps)
  {
    Matching(s, q.scope, Requirements(q.labelSelector), Requirements(q.fieldSelector))
  }

  ghost function EndOf(s: Store, q: Query, offset: nat, limit: LimitParam): (end: nat)
    requires offset <= |Listed(s, q)|
    ensures offset <= end <= |Listed(s, q)|
  {
    PageEnd(s, q.scope, Requirements(q.labelSelector), Requirements(q.fieldSelector), offset, LimitOf(limit))
  }

  ghost function List(s: Store, q: Query, limit: LimitParam, token: Token, requestedVersion: string): Reply {
    var version := Decimal(s.revision);
    if !ValidFieldSelector(q.fieldSelector) || !ValidLimit(limit) then BadRequest
    else if token.Garbled? || (token.Continue? && token.offset < 0) then BadRequest
    else if token.Continue? && (token.version != version || token.identity != Identity(q)) then Expired
    else
      var offset: nat := if token.Continue? then token.offset else 0;
      var ps := Listed(s, q);
      if offset > |ps| then BadRequest
      else if requestedVersion != "" && requestedVersion != "0" && requestedVersion != version then Expired
      else
        var end := EndOf(s, q, offset, limit);
        Page(version, Items(s, q.scope, ps, offset, end),
             if end < |ps| then Continue(version, Identity(q), end) else Empty, |ps| - end)
  }

  // ----- a client following tokens -----

  /** What a client has gathered: `complete` once a page came without a token. */
  datatype Gathered = Gathered(items: seq<Object>, next: Token, complete: bool)

  ghost function Walk(s: Store, q: Query, limits: seq<LimitParam>, token: Token): Gathered {
    if limits == [] then Gathered([], token, false)
    else
      match List(s, q, limits[0], token, "")
      case Page(_, items, next, _) =>
        if next == Empty then Gathered(items, Empty, true)
        else
          var rest := Walk(s, q, limits[1..], next);
          rest.(items := items + rest.items)
      case _ => Gathered([], token, false)
  }

  ghost predicate StandsAt(s: Store, q: Query, token: Token, offset: nat) {
    (token == Empty && offset == 0) || token == Continue(Decimal(s.revision), Identity(q), offset)
  }

  lemma {:induction false} WalkFrom(s: Store, q: Query, limits: seq<LimitParam>, token: Token, offset: nat)
    requires ValidFieldSelector(q.fieldSelector)
    requires forall i :: 0 <= i < |limits| ==> ValidLimit(limits[i])
    requires StandsAt(s, q, token, offset) && offset <= |Listed(s, q)|
    ensures var ps, got := Listed(s, q), Walk(s, q, limits, token);
      if got.complete then got.items == Items(s, q.scope, ps, offset, |ps|)
      else
        var reached := offset + |got.items|;
        |limits| <= |got.items| && reached <= |ps| && StandsAt(s, q, got.next, reached)
        && got.items == Items(s, q.scope, ps, offset, reached)
    ensures limits != [] && |limits| >= |Listed(s, q)| - offset ==> Walk(s, q, limits, token).complete
  {
    hide List, Listed, ValidFieldSelector, Identity, ValidLimit, Items, EndOf, AllStored, Sorted;
    var ps := Listed(s, q);
    if limits == [] {
      assert Walk(s, q, limits, token).items == Items(s, q.scope, ps, offset, offset);
    } else {
      var end := EndOf(s, q, offset, limits[0]);
      PageProgress(s, q, offset, limits[0]);
      PageReply(s, q, limits[0], token, offset);
      if end < |ps| {
        var next := Continue(Decimal(s.revision), Identity(q), end);
        WalkFrom(s, q, limits[1..], next, end);
        WalkStep(s, q, limits, token);
        var rest := Walk(s, q, limits[1..], next);
        ItemsConcat(s, q.scope, ps, offset, end, if rest.complete then |ps| else end + |rest.items|);
      }
    }
  }

  lemma PageReply(s: Store, q: Query, limit: LimitParam, token: Token, offset: nat)
    requires ValidFieldSelector(q.fieldSelector) && ValidLimit(limit)
    requires StandsAt(s, q, token, offset) && offset <= |Listed(s, q)|
    ensures var ps, end := Listed(s, q), EndOf(s, q, offset, limit);
      List(s, q, limit, token, "") == Page(Decimal(s.revision), Items(s, q.scope, ps, offset, end),
        if end < |ps| then Continue(Decimal(s.revision), Identity(q), end) else Empty, |ps| - end)
  {
    hide ValidFieldSelector, Identity, Listed, EndOf, ValidLimit, Items;
  }

  lemma WalkStep(s: Store, q: Query, limits: seq<LimitParam>, token: Token)
    requires limits != [] && List(s, q, limits[0], token, "").Page? && List(s, q, limits[0], token, "").next != Empty
    ensures var page := List(s, q, limits[0], token, "");
      var rest := Walk(s, q, limits[1..], page.next);
      Walk(s, q, limits, token) == Gathered(page.items + rest.items, rest.next, rest.complete)
  {
    hide List;
  }

  lemma PageProgress(s: Store, q: Query, offset: nat, limit: LimitParam)
    requires offset <= |Listed(s, q)|
    ensures offset < |Listed(s, q)| ==> offset < EndOf(s, q, offset, limit)
  {
    PageIsLargest(s, q.scope, Requirements(q.labelSelector), Requirements(q.fieldSelector), offset, LimitOf(limit));
  }

  lemma ItemsConcat(s: Store, scope: Scope, ps: seq<Place>, from: nat, mid: nat, upto: nat)
    requires AllStored(s, scope, ps) && from <= mid <= upto <= |ps|
    ensures Items(s, scope, ps, from, upto) == Items(s, scope, ps, from, mid) + Items(s, scope, ps, mid, upto)
  {
  }

  /** Which limits a request may give, and what they come to. */
  lemma LimitsDecide(s: Store, q: Query, limit: LimitParam, token: Token, version: string)
    ensures limit.Malformed? || (limit.Given? && !(0 <= limit.n <= 1000)) ==> List(s, q, limit, token, version) == BadRequest
    ensures limit.Absent? || (limit.Given? && (limit.n == 0 || 100 < limit.n <= 1000)) ==>
      List(s, q, limit, token, version) == List(s, q, Given(100), token, version)
  {
    if limit.Absent? || (limit.Given? && (limit.n == 0 || 100 < limit.n <= 1000)) {
      SameLimit(s, q, limit, Given(100), token, version);
    }
    hide ValidFieldSelector, Identity, Listed, Items, Decimal, EndOf;
  }

  lemma SameLimit(s: Store, q: Query, a: LimitParam, b: LimitParam, token: Token, version: string)
    requires ValidLimit(a) && ValidLimit(b) && LimitOf(a) == LimitOf(b)
    ensures List(s, q, a, token, version) == List(s, q, b, token, version)
  {
    hide ValidFieldSelector, Identity, Listed, Items, Decimal, PageEnd, ValidLimit, LimitOf, Requirements;
  }

  /** Which requests are answered with a page: valid selectors and limit, a current token of this query or none, and no other version asked for. */
  lemma AnsweredExactly(s: Store, q: Query, limit: LimitParam, token: Token, version: string)
    ensures var current, reply := Decimal(s.revision), List(s, q, limit, token, version);
      && (reply.Page? <==>
            && ValidFieldSelector(q.fieldSelector) && (limit.Absent? || (limit.Given? && 0 <= limit.n <= 1000))
            && (token.Empty? || (token.Continue? && token.version == current && token.identity == Identity(q) && 0 <= token.offset <= |Listed(s, q)|))
            && (version == "" || version == "0" || version == current))
      && (reply.Page? ==> reply.version == current && reply == List(s, q, limit, token, ""))
  {
    hide ValidFieldSelector, Identity, Listed, Items, Decimal, EndOf;
  }

  /** A first request with a limit: at most that many items, and exactly as many unless bytes end the page. */
  lemma FirstPageLength(s: Store, q: Query, n: int)
    requires ValidFieldSelector(q.fieldSelector) && 1 <= n <= 100
    ensures var reply, ps := List(s, q, Given(n), Empty, ""), Listed(s, q);
      && reply.Page? && |reply.items| <= n && |reply.items| + reply.remaining == |ps|
      && (reply.next == Empty <==> reply.remaining == 0)
      && (|reply.items| == n || reply.remaining == 0
          || (reply.items != [] && Sum(Sizes(s, q.scope, ps), 0, |reply.items| + 1) > 1048576))
      && reply.items == Items(s, q.scope, ps, 0, |reply.items|)
  {
    PageReply(s, q, Given(n), Empty, 0);
    PageLength(s, q.scope, Requirements(q.labelSelector), Requirements(q.fieldSelector), 0, n);
    hide Matching, Sizes, Items, Extend, Requirements, ValidFieldSelector, List, Sum;
  }

  /**
   * On an unchanged store, pages fetched with any valid limits concatenate to a prefix of the
   * full listing, and to all of it after at most one request per match (one for an empty listing).
   */
  lemma PagesConcatenate(s: Store, q: Query, limits: seq<LimitParam>)
    requires ValidFieldSelector(q.fieldSelector)
    requires forall i :: 0 <= i < |limits| ==> ValidLimit(limits[i])
    ensures var ps, got := Listed(s, q), Walk(s, q, limits, Empty);
      && (got.complete ==> got.items == Items(s, q.scope, ps, 0, |ps|))
      && (!got.complete ==> |limits| <= |got.items| <= |ps| && got.items == Items(s, q.scope, ps, 0, |got.items|))
      && (limits != [] && |limits| >= |ps| ==> got.complete)
  {
    hide Walk, Listed;
    WalkFrom(s, q, limits, Empty, 0);
  }

  /** The full listing holds each matching object once, in strict (namespace, name) order. */
  lemma ListingOrder(s: Store, q: Query)
    ensures var ps := Listed(s, q);
      && (forall i, j :: 0 <= i < j < |ps| ==> Before(ps[i], ps[j]) && ps[i] != ps[j])
      && (forall key :: key in s.objects && Picks(q.scope, Requirements(q.labelSelector), Requirements(q.fieldSelector), key, s.objects[key])
           <==> InScope(q.scope, key) && PlaceOf(key) in ps)
  {
    hide Picks, Requirements;
    var ps := Listed(s, q);
    SortedNoRepeats(ps);
    forall key: ObjectKey
      ensures key in s.objects && Picks(q.scope, Requirements(q.labelSelector), Requirements(q.fieldSelector), key, s.objects[key])
        <==> InScope(q.scope, key) && PlaceOf(key) in ps
    {
      PickedInScope(s, q, key);
      assert PlaceOf(key) in ps <==> MatchesAt(s, q.scope, Requirements(q.labelSelector), Requirements(q.fieldSelector), PlaceOf(key));
      assert InScope(q.scope, key) ==> KeyAt(q.scope, PlaceOf(key)) == key;
    }
  }

  lemma PickedInScope(s: Store, q: Query, key: ObjectKey)
    ensures key in s.objects && Picks(q.scope, Requirements(q.labelSelector), Requirements(q.fieldSelector), key, s.objects[key]) ==> InScope(q.scope, key)
  {
  }

  /** A token survives exactly the runs that mutate nothing. */
  lemma TokenExpires(s: Store, q: Query, limit: LimitParam, offset: nat, ops: seq<Op>)
    requires ValidFieldSelector(q.fieldSelector) && ValidLimit(limit) && offset <= |Listed(s, q)|
    ensures var token := Continue(Decimal(s.revision), Identity(q), offset);
      List(Run(s, ops), q, limit, token, "") == Expired <==> Mutations(s, ops) != []
    ensures Mutations(s, ops) == [] ==>
      List(Run(s, ops), q, limit, Continue(Decimal(s.revision), Identity(q), offset), "") ==
      List(s, q, limit, Continue(Decimal(s.revision), Identity(q), offset), "")
  {
    hide ValidFieldSelector, ValidLimit, Identity, Listed, List, Items, EndOf;
    var t := Run(s, ops);
    var token := Continue(Decimal(s.revision), Identity(q), offset);
    RevisionGrows(s, ops);
    if Mutations(s, ops) == [] {
      QuietRun(s, ops);
      SameListing(s, t, q, offset, limit);
      PageReply(s, q, limit, token, offset);
      PageReply(t, q, limit, token, offset);
    } else {
      OldToken(t, q, limit, s.revision, offset);
    }
  }

  lemma OldToken(t: Store, q: Query, limit: LimitParam, revision: nat, offset: nat)
    requires ValidFieldSelector(q.fieldSelector) && ValidLimit(limit) && revision < t.revision
    ensures List(t, q, limit, Continue(Decimal(revision), Identity(q), offset), "") == Expired
  {
    hide ValidFieldSelector, ValidLimit, Identity, Listed, Items, EndOf;
    if Decimal(t.revision) == Decimal(revision) {
      DecimalInjective(t.revision, revision);
    }
  }

  lemma {:induction false} QuietRun(s: Store, ops: seq<Op>)
    requires Mutations(s, ops) == []
    ensures Run(s, ops).objects == s.objects
  {
    if ops != [] {
      QuietRun(s, ops[..|ops| - 1]);
      StepRevision(Run(s, ops[..|ops| - 1]), ops[|ops| - 1]);
    }
  }

  lemma SameListing(s: Store, t: Store, q: Query, offset: nat, limit: LimitParam)
    requires s.objects == t.objects && offset <= |Listed(s, q)|
    ensures Listed(s, q) == Listed(t, q)
    ensures EndOf(s, q, offset, limit) == EndOf(t, q, offset, limit)
    ensures forall a, b :: 0 <= a <= b <= |Listed(s, q)| ==>
      Items(s, q.scope, Listed(s, q), a, b) == Items(t, q.scope, Listed(t, q), a, b)
  {
    var labels, fields := Requirements(q.labelSelector), Requirements(q.fieldSelector);
    hide Requirements, Picks;
    SortedUnique(Matching(s, q.scope, labels, fields), Matching(t, q.scope, labels, fields));
    assert Sizes(s, q.scope, Listed(s, q)) == Sizes(t, q.scope, Listed(t, q));
  }

  // ----- whose token it is -----

  function Parts(q: Query): seq<string> {
    [q.scope.group, q.scope.version, q.scope.namespace, q.scope.resource, q.labelSelector, q.fieldSelector]
  }

  ghost predicate NoNul(q: Query) {
    forall i :: 0 <= i < 6 ==> '\0' !in Parts(q)[i]
  }

  /** A current token of one query is refused by another exactly when their identities differ. */
  lemma TokenOfAnother(s: Store, q: Query, other: Query, limit: LimitParam, offset: nat)
    requires ValidFieldSelector(q.fieldSelector) && ValidLimit(limit)
    ensures Identity(q) != Identity(other) ==> List(s, q, limit, Continue(Decimal(s.revision), Identity(other), offset), "") == Expired
    ensures Identity(q) == Identity(other) ==> List(s, q, limit, Continue(Decimal(s.revision), Identity(other), offset), "") != Expired
  {
    hide ValidFieldSelector, Listed, EndOf, Items, Decimal;
  }

  /** Identities tell queries apart as long as no part holds a NUL. */
  lemma IdentityInjective(q: Query, other: Query)
    requires NoNul(q) && NoNul(other)
    ensures Identity(q) == Identity(other) <==> q == other
  {
    if Identity(q) == Identity(other) {
      SplitJoin(Parts(q), '\0');
      SplitJoin(Parts(other), '\0');
      hide Join, Split;
      assert Parts(q)[0] == Parts(other)[0] && Parts(q)[1] == Parts(other)[1] && Parts(q)[2] == Parts(other)[2];
      assert Parts(q)[3] == Parts(other)[3] && Parts(q)[4] == Parts(other)[4] && Parts(q)[5] == Parts(other)[5];
    }
  }

  lemma JoinTwo(first: string, rest: seq<string>)
    requires rest != []
    ensures Join([first] + rest, '\0') == first + "\0" + Join(rest, '\0')
  {
    assert ([first] + rest)[1..] == rest;
  }

  lemma JoinParts(q: Query)
    ensures Identity(q) == Join(Parts(q)[..4] + [q.labelSelector + "\0" + q.fieldSelector], '\0')
  {
    var p, last := Parts(q), q.labelSelector + "\0" + q.fieldSelector;
    assert [q.labelSelector, q.fieldSelector][1..] == [q.fieldSelector];
    assert Join([q.labelSelector, q.fieldSelector], '\0') == last;
    hide Join;
    JoinTail(p[..4], [q.labelSelector, q.fieldSelector], [last]);
    assert p[..4] + [q.labelSelector, q.fieldSelector] == p;
  }

  lemma {:induction false} JoinTail(front: seq<string>, tail: seq<string>, other: seq<string>)
    requires tail != [] && other != [] && Join(tail, '\0') == Join(other, '\0')
    ensures Join(front + tail, '\0') == Join(front + other, '\0')
  {
    if front == [] {
      assert front + tail == tail && front + other == other;
    } else {
      JoinTail(front[1..], tail, other);
      JoinTwo(front[0], front[1..] + tail);
      JoinTwo(front[0], front[1..] + other);
      assert [front[0]] + (front[1..] + tail) == front + tail;
      assert [front[0]] + (front[1..] + other) == front + other;
    }
  }

  /** With a NUL they need not: these two queries differ, are both accepted, and share their tokens. */
  lemma IdentitiesCanCollide(scope: Scope)
    ensures var q, other := Query(scope, "\0type=a", ""), Query(scope, "", "type=a\0");
      q != other && Identity(q) == Identity(other) && ValidFieldSelector(q.fieldSelector) && ValidFieldSelector(other.fieldSelector)
  {
    var q, other := Query(scope, "\0type=a", ""), Query(scope, "", "type=a\0");
    hide Identity, ValidFieldSelector, Join;
    JoinParts(q);
    JoinParts(other);
    assert "\0type=a" + "\0" + "" == "" + "\0" + "type=a\0";
    assert Parts(q)[..4] == Parts(other)[..4];
    EmptySelector();
    NulSelector();
  }

  lemma EmptySelector()
    ensures ValidFieldSelector("")
  {
  }

  lemma NulRequirement()
    ensures ParseRequirement("type=a\0") == Valid([Requirement("type", "=", "a\0")])
  {
    hide TrimSpace, Search;
    var text := "type=a\0";
    TrimKeeps(text);
    TrimKeeps("type");
    TrimKeeps("a\0");
    assert Search(text, "!=") == |text| && Search(text, "==") == |text| by { NotFound(); }
    assert Search(text, "=") == 4 by { FoundAt(); }
    assert text[..4] == "type" && text[4..] == "=a\0" && text[4..][1..] == "a\0";
  }

  lemma NotFound()
    ensures Search("type=a\0", "!=") == 7 && Search("type=a\0", "==") == 7
  {
    var text := "type=a\0";
    hide Search;
    forall j | 0 <= j < 7 ensures !("!=" <= text[j..]) {
      assert text[j..][0] == text[j] && "!="[0] == '!';
    }
    forall j | 0 <= j < 7 ensures !("==" <= text[j..]) {
      assert forall k :: 0 <= k < 7 - j ==> text[j..][k] == text[j + k];
      assert "=="[0] == '=' && "=="[1] == '=' && !(text[j] == '=' && j < 6 && text[j + 1] == '=');
    }
    SearchFrom(text, "!=", 7);
    SearchFrom(text, "==", 7);
  }

  lemma FoundAt()
    ensures Search("type=a\0", "=") == 4
  {
    var text := "type=a\0";
    hide Search;
    forall j | 0 <= j < 4 ensures !("=" <= text[j..]) {
      assert text[j..][0] == text[j] && "="[0] == '=';
    }
    SearchFrom(text, "=", 4);
  }

  lemma NulSelector()
    ensures ValidFieldSelector("type=a\0")
  {
    hide TrimSpace, ParseRequirement, Split;
    TrimKeeps("type=a\0");
    NulRequirement();
    SplitJoin(["type=a\0"], ',');
    assert ["type=a\0"][1..] == [];
    assert ParseRequirements([]) == Valid([]);
    assert ParseRequirements(["type=a\0"]) == Valid([Requirement("type", "=", "a\0")]);
  }
}
