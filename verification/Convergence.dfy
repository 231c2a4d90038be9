/** Where the controller emulation ends up: convergence, framing and self-healing. */
module Convergence {
  import opened Sums
  import opened Text
  import opened Order
  import opened PodNames
  import opened ControllerModel
  import Paging

  ghost predicate PodsFit(pods: map<string, Pod>) {
    OnOnePage(PodSizes(pods))
  }

  ghost predicate SetsFit(sets: map<string, ReplicaSet>) {
    OnOnePage(SetSizes(sets))
  }

  /** The pods that a listing of the namespace shows the reconciler. */
  ghost function Seen(pods: map<string, Pod>): set<string> {
    Elements(Page(PodSizes(pods)))
  }

  lemma SeenAll(pods: map<string, Pod>, owner: string)
    requires PodsFit(pods)
    ensures SeenPods(pods, owner) == OwnedPods(pods, owner) && Seen(pods) == pods.Keys
  {
    hide OnOnePage, Page, OwnedBy;
    SeesAllExactly(PodSizes(pods));
  }

  lemma SeenAmongOwned(pods: map<string, Pod>, owner: string)
    ensures SeenPods(pods, owner) <= OwnedPods(pods, owner)
  {
    hide OwnedBy, Page;
  }

  lemma SeenAllSets(sets: map<string, ReplicaSet>, owner: string)
    requires SetsFit(sets)
    ensures forall n :: n in SeenSets(sets, owner) <==> n in OwnedSets(sets, owner)
  {
    hide OnOnePage, Page, OwnedBy;
    SeesAllExactly(SetSizes(sets));
    SeenSetNames(sets, owner);
    var page := Page(SetSizes(sets));
    assert forall n :: n in page <==> n in Elements(page);
  }

  lemma {:induction false} TotalOfPart(small: map<string, nat>, large: map<string, nat>)
    requires small.Keys <= large.Keys && forall k :: k in small ==> small[k] == large[k]
    ensures Total(small) <= Total(large) && |small| <= |large|
    decreases |small|
  {
    if small == map[] {
      TotalNonNegative(large);
    } else {
      var p := Pick(small.Keys);
      TotalExtract(small, p);
      TotalExtract(large, p);
      SizeWithout(small, p);
      SizeWithout(large, p);
      TotalOfPart(small - {p}, large - {p});
    }
  }

  /** Part of what fits one page fits one page. */
  lemma PartFits(small: map<string, nat>, large: map<string, nat>)
    requires OnOnePage(large) && small.Keys <= large.Keys && forall k :: k in small ==> small[k] == large[k]
    ensures OnOnePage(small)
  {
    TotalOfPart(small, large);
  }

  lemma FewerPods(some: map<string, Pod>, all: map<string, Pod>)
    requires PodsFit(all) && some.Keys <= all.Keys && forall n :: n in some ==> some[n] == all[n]
    ensures PodsFit(some)
  {
    hide OnOnePage;
    PartFits(PodSizes(some), PodSizes(all));
  }

  // ----- pods of one owner -----

  /** Which names a sync leaves, and with what; an owned pod off the page is not seen, and stays. */
  lemma SyncEffect(pods: map<string, Pod>, owner: string, wanted: set<string>, pod: Pod, puts: Puts)
    ensures var after := SyncPods(pods, owner, wanted, pod, puts);
      && (forall n :: n in after <==>
            || (n in pods && (n in wanted || n !in Seen(pods) || !OwnedBy(pods[n].owners, owner)))
            || (n in wanted && n !in pods && n !in puts.pods))
      && (forall n :: n in after ==> after[n] == if n in pods then pods[n] else pod.(size := puts.podSize(n)))
  {
    hide OwnedBy, Page;
  }

  /** Wanted names held by someone else. */
  ghost function Foreign(pods: map<string, Pod>, owner: string, wanted: set<string>): (f: set<string>)
    ensures f <= wanted
  {
    set n | n in wanted && n in pods && !OwnedBy(pods[n].owners, owner)
  }

  /** What a sync leaves of one owner's pods: what was wanted, and what was unwanted but not seen. */
  lemma SyncOwned(pods: map<string, Pod>, owner: string, wanted: set<string>, pod: Pod, puts: Puts)
    requires OwnedBy(pod.owners, owner)
    ensures OwnedPods(SyncPods(pods, owner, wanted, pod, puts), owner)
      == (wanted - Foreign(pods, owner, wanted) - (puts.pods - pods.Keys)) + (OwnedPods(pods, owner) - wanted - Seen(pods))
  {
    hide SyncPods, OwnedBy, Seen;
    SyncEffect(pods, owner, wanted, pod, puts);
    var after := SyncPods(pods, owner, wanted, pod, puts);
    var left := (wanted - Foreign(pods, owner, wanted) - (puts.pods - pods.Keys)) + (OwnedPods(pods, owner) - wanted - Seen(pods));
    forall n ensures n in OwnedPods(after, owner) <==> n in left {
      assert n in OwnedPods(after, owner) <==> n in after && OwnedBy(after[n].owners, owner);
      assert n in after && n !in pods ==> after[n].owners == pod.owners;
    }
  }

  /**
   * A workload that owns its pods directly, in any namespace: afterwards it owns the wanted names
   * that are not held by someone else and whose creation was not refused, and the unwanted pods
   * that the listing did not show. Nothing else has changed.
   */
  lemma WorkloadConverges(c: Cluster, apiVersion: string, kind: string, name: string, w: Workload, puts: Puts)
    requires DesiredPods(c, kind, w.replicas) >= 0
    ensures var r, wanted := MaterializePods(c, apiVersion, kind, name, w, puts), WantedPods(c, kind, name, DesiredPods(c, kind, w.replicas));
      && OwnedPods(r.pods, name)
        == (wanted - Foreign(c.pods, name, wanted) - (puts.pods - c.pods.Keys)) + (OwnedPods(c.pods, name) - wanted - Seen(c.pods))
      && (forall n :: n in c.pods && !OwnedBy(c.pods[n].owners, name) ==> n in r.pods && r.pods[n] == c.pods[n])
      && (forall n :: n in r.pods && n !in c.pods ==>
            n in wanted && r.pods[n] == Pod([OwnerRef(apiVersion, kind, name, true)], w.template, puts.podSize(n)))
      && (forall n :: n in r.pods && n in c.pods ==> r.pods[n] == c.pods[n])
      && r == c.(pods := r.pods)
  {
    var wanted := WantedPods(c, kind, name, DesiredPods(c, kind, w.replicas));
    var pod := Pod([OwnerRef(apiVersion, kind, name, true)], w.template, 0);
    assert OwnedBy(pod.owners, name) by { assert pod.owners[0].name == name; }
    SyncOwned(c.pods, name, wanted, pod, puts);
    SyncEffect(c.pods, name, wanted, pod, puts);
    hide SyncPods, OwnedBy, WantedPods, Foreign, Seen;
  }

  /**
   * It owns nothing unwanted exactly when the listing shows all its unwanted pods, which it does
   * whenever the namespace's pods fit one page.
   */
  lemma WorkloadConvergesExactly(c: Cluster, apiVersion: string, kind: string, name: string, w: Workload, puts: Puts)
    requires DesiredPods(c, kind, w.replicas) >= 0
    ensures var r, wanted := MaterializePods(c, apiVersion, kind, name, w, puts), WantedPods(c, kind, name, DesiredPods(c, kind, w.replicas));
      && (OwnedPods(r.pods, name) <= wanted <==> OwnedPods(c.pods, name) - wanted <= Seen(c.pods))
      && (PodsFit(c.pods) ==> OwnedPods(c.pods, name) - wanted <= Seen(c.pods))
  {
    hide OwnedBy, WantedPods, MaterializePods, Seen, PodsFit;
    WorkloadConverges(c, apiVersion, kind, name, w, puts);
    var wanted := WantedPods(c, kind, name, DesiredPods(c, kind, w.replicas));
    if PodsFit(c.pods) {
      SeenAll(c.pods, name);
    }
    hide Foreign, OwnedPods;
    UnwantedLeft(wanted, Foreign(c.pods, name, wanted), puts.pods - c.pods.Keys, OwnedPods(c.pods, name), Seen(c.pods));
  }

  lemma UnwantedLeft(wanted: set<string>, foreign: set<string>, refused: set<string>, owned: set<string>, seen: set<string>)
    ensures (wanted - foreign - refused) + (owned - wanted - seen) <= wanted <==> owned - wanted <= seen
  {
    var left := (wanted - foreign - refused) + (owned - wanted - seen);
    assert forall n :: n in owned - wanted && n !in seen ==> n in left;
  }

  // ----- retiring old ReplicaSets -----

  ghost predicate OwnedByAny(owners: seq<OwnerRef>, names: seq<string>, except: string) {
    exists i :: 0 <= i < |names| && names[i] != except && OwnedBy(owners, names[i])
  }

  lemma OwnedByHead(owners: seq<OwnerRef>, names: seq<string>, except: string)
    requires names != []
    ensures OwnedByAny(owners, names, except) <==>
      (names[0] != except && OwnedBy(owners, names[0])) || OwnedByAny(owners, names[1..], except)
  {
    hide OwnedBy;
    if OwnedByAny(owners, names, except) {
      var i :| 0 <= i < |names| && names[i] != except && OwnedBy(owners, names[i]);
      assert i > 0 ==> names[i] == names[1..][i - 1];
    }
    if OwnedByAny(owners, names[1..], except) {
      var i :| 0 <= i < |names[1..]| && names[1..][i] != except && OwnedBy(owners, names[1..][i]);
      assert names[i + 1] == names[1..][i];
    }
  }

  /** The pods that no ReplicaSet of the list, except the current one, owns. */
  ghost function Unretired(pods: map<string, Pod>, older: seq<string>, rsName: string): map<string, Pod> {
    map n | n in pods && !OwnedByAny(pods[n].owners, older, rsName) :: pods[n]
  }

  lemma UnretiredHead(pods: map<string, Pod>, older: seq<string>, rsName: string)
    requires older != []
    ensures Unretired(pods, older, rsName)
      == Unretired(if older[0] == rsName then pods else pods - OwnedPods(pods, older[0]), older[1..], rsName)
  {
    forall n | n in pods ensures OwnedByAny(pods[n].owners, older, rsName) <==>
      (older[0] != rsName && OwnedBy(pods[n].owners, older[0])) || OwnedByAny(pods[n].owners, older[1..], rsName)
    {
      OwnedByHead(pods[n].owners, older, rsName);
    }
    hide OwnedBy, OwnedByAny;
  }

  lemma UnretiredNone(pods: map<string, Pod>, rsName: string)
    ensures Unretired(pods, [], rsName) == pods
  {
    hide OwnedBy;
  }

  lemma RetiredPods(c: Cluster, oldName: string, puts: Puts)
    requires PodsFit(c.pods)
    ensures RetireOne(c, oldName, puts).pods == c.pods - OwnedPods(c.pods, oldName)
    ensures PodsFit(RetireOne(c, oldName, puts).pods)
  {
    hide OwnedPods, PodsFit;
    SeenAll(c.pods, oldName);
    FewerPods(c.pods - SeenPods(c.pods, oldName), c.pods);
  }

  lemma {:induction false} RetirePods(c: Cluster, older: seq<string>, rsName: string, puts: Puts)
    requires PodsFit(c.pods)
    ensures Retire(c, older, rsName, puts).pods == Unretired(c.pods, older, rsName)
    decreases |older|
  {
    hide OwnedPods, Unretired, RetireOne, PodsFit;
    if older == [] {
      UnretiredNone(c.pods, rsName);
    } else {
      UnretiredHead(c.pods, older, rsName);
      if older[0] == rsName {
        RetirePods(c, older[1..], rsName, puts);
      } else {
        RetiredPods(c, older[0], puts);
        RetirePods(RetireOne(c, older[0], puts), older[1..], rsName, puts);
      }
    }
  }

  lemma {:induction false} RetireSets(c: Cluster, older: seq<string>, rsName: string, puts: Puts)
    ensures var r := Retire(c, older, rsName, puts);
      && r == c.(sets := r.sets, pods := r.pods)
      && r.sets == map n | n in c.sets ::
           if n in older && n != rsName && n !in puts.sets then Scaled(c.sets[n], 0, puts.setSize(n)) else c.sets[n]
    decreases |older|
  {
    hide SeenPods;
    if older != [] {
      if older[0] == rsName {
        RetireSets(c, older[1..], rsName, puts);
      } else {
        RetireSets(RetireOne(c, older[0], puts), older[1..], rsName, puts);
      }
      assert forall n :: n in older <==> n == older[0] || n in older[1..];
    }
  }

  // ----- a Deployment -----

  /** No pod names two different owners. */
  ghost predicate SingleOwners(pods: map<string, Pod>) {
    forall n, a, b :: n in pods && OwnedBy(pods[n].owners, a) && OwnedBy(pods[n].owners, b) ==> a == b
  }

  ghost function WantedOf(name: string, replicas: int, template: string): set<string>
    requires replicas >= 0
  {
    Elements(ReplicaPodNames(SetName(name, template), Capped(replicas)))
  }

  /** The pods a reconcile may leave, by size: those there are and those it may add. */
  function Foreseen(pods: map<string, Pod>, wanted: set<string>, puts: Puts): map<string, nat> {
    map n | n in pods.Keys + wanted :: if n in pods then pods[n].size else puts.podSize(n)
  }

  /** Both listings of the namespace fit one page, also once the reconcile has added what it may add. */
  ghost predicate OnePage(c: Cluster, name: string, replicas: int, template: string, puts: Puts)
    requires replicas >= 0
  {
    && OnOnePage(Foreseen(c.pods, WantedOf(name, replicas, template), puts))
    && SetsFit(CurrentSet(c, name, SetName(name, template), Capped(replicas), template, puts))
  }

  /** The premises of convergence: one-page listings, one owner per pod, and no refused put. */
  ghost predicate Reachable(c: Cluster, name: string, replicas: int, template: string, puts: Puts)
    requires replicas >= 0
  {
    OnePage(c, name, replicas, template, puts) && SingleOwners(c.pods) && Unrefused(puts)
  }

  lemma ForeseenCovers(pods: map<string, Pod>, wanted: set<string>, puts: Puts)
    requires OnOnePage(Foreseen(pods, wanted, puts))
    ensures PodsFit(pods)
  {
    hide OnOnePage;
    PartFits(PodSizes(pods), Foreseen(pods, wanted, puts));
  }

  /** The pods of a state in between are some of those foreseen. */
  lemma SyncedFit(pods: map<string, Pod>, owner: string, wanted: set<string>, pod: Pod, puts: Puts)
    requires OnOnePage(Foreseen(pods, wanted, puts))
    ensures PodsFit(SyncPods(pods, owner, wanted, pod, puts))
  {
    hide OnOnePage, SyncPods;
    SyncEffect(pods, owner, wanted, pod, puts);
    PartFits(PodSizes(SyncPods(pods, owner, wanted, pod, puts)), Foreseen(pods, wanted, puts));
  }

  /**
   * Listings fit one page whenever the namespace has room, in number and in bytes, for the
   * wanted pods and for one more ReplicaSet.
   */
  lemma RoomFitsOnePage(c: Cluster, name: string, replicas: int, template: string, puts: Puts, largest: nat)
    requires replicas >= 0 && forall n :: puts.podSize(n) <= largest
    requires |c.pods| + Capped(replicas) <= MAX_PODS
    requires Total(PodSizes(c.pods)) + Capped(replicas) * largest <= MAX_BYTES
    requires |c.sets| < MAX_PODS
    requires Total(SetSizes(c.sets)) + puts.setSize(SetName(name, template)) <= MAX_BYTES
    ensures OnePage(c, name, replicas, template, puts)
  {
    hide SetName, Numbered, Total;
    var wanted := WantedOf(name, replicas, template);
    ElementsSize(ReplicaPodNames(SetName(name, template), Capped(replicas)));
    RoomForPods(c.pods, wanted, puts, largest);
    RoomForSet(c, name, SetName(name, template), Capped(replicas), template, puts);
    ScaleDown(|wanted|, Capped(replicas), largest);
  }

  const MAX_PODS := Paging.MAX_LIST_PAGE_ITEMS
  const MAX_BYTES := Paging.MAX_LIST_PAGE_BYTES

  lemma ScaleDown(few: nat, many: nat, each: nat)
    requires few <= many
    ensures few * each <= many * each
  {
  }

  lemma ElementsHead(names: seq<string>)
    requires names != []
    ensures Elements(names) == {names[0]} + Elements(names[1..])
  {
  }

  lemma ElementsNone()
    ensures Elements<string>([]) == {}
  {
  }

  lemma {:induction false} ElementsSize(names: seq<string>)
    ensures |Elements(names)| <= |names|
  {
    hide Elements;
    if names == [] {
      ElementsNone();
    } else {
      ElementsSize(names[1..]);
      ElementsHead(names);
      assert |{names[0]} + Elements(names[1..])| == 1 + |Elements(names[1..])| - |{names[0]} * Elements(names[1..])|;
    }
  }

  lemma ForeseenOneMore(pods: map<string, Pod>, wanted: set<string>, puts: Puts, n: string)
    requires n in wanted
    ensures var f, g := Foreseen(pods, wanted - {n}, puts), Foreseen(pods, wanted, puts);
      && n in g && g == f[n := g[n]] && (n in pods ==> g == f) && (n !in pods ==> n !in f && g[n] == puts.podSize(n))
  {
  }

  lemma ForeseenNone(pods: map<string, Pod>, puts: Puts)
    ensures Foreseen(pods, {}, puts) == PodSizes(pods) && |PodSizes(pods)| == |pods|
  {
    assert PodSizes(pods).Keys == pods.Keys;
  }

  lemma {:induction false} RoomForPods(pods: map<string, Pod>, wanted: set<string>, puts: Puts, largest: nat)
    requires forall n :: puts.podSize(n) <= largest
    ensures |Foreseen(pods, wanted, puts)| <= |pods| + |wanted|
    ensures Total(Foreseen(pods, wanted, puts)) <= Total(PodSizes(pods)) + |wanted| * largest
    decreases |wanted|
  {
    hide Total, Foreseen, PodSizes;
    if wanted == {} {
      ForeseenNone(pods, puts);
    } else {
      var n :| n in wanted;
      RoomForPods(pods, wanted - {n}, puts, largest);
      ForeseenOneMore(pods, wanted, puts, n);
      var f := Foreseen(pods, wanted - {n}, puts);
      TotalUpdate(f, n, Foreseen(pods, wanted, puts)[n]);
      assert |wanted - {n}| == |wanted| - 1;
      ScaleOne(|wanted|, largest);
    }
  }

  lemma ScaleOne(n: nat, each: nat)
    requires n > 0
    ensures (n - 1) * each + each == n * each && 0 <= (n - 1) * each
  {
  }

  lemma RoomForSet(c: Cluster, name: string, rsName: string, desired: int, template: string, puts: Puts)
    requires |c.sets| < MAX_PODS && Total(SetSizes(c.sets)) + puts.setSize(rsName) <= MAX_BYTES
    ensures SetsFit(CurrentSet(c, name, rsName, desired, template, puts))
  {
    hide Total;
    var before, current := SetSizes(c.sets), SetSizes(CurrentSet(c, name, rsName, desired, template, puts));
    assert before.Keys == c.sets.Keys;
    assert |before| == |c.sets|;
    if rsName in current {
      assert current == before[rsName := current[rsName]];
      TotalUpdate(before, rsName, current[rsName]);
    } else {
      assert current == before;
    }
  }

  ghost function OlderSets(c: Cluster, name: string, rsName: string): set<string> {
    OwnedSets(c.sets, name) - {rsName}
  }

  ghost function SettledSets(c: Cluster, name: string, rsName: string, desired: int, template: string, puts: Puts): map<string, ReplicaSet> {
    var current := CurrentSet(c, name, rsName, desired, template, puts);
    map n | n in current :: if n in OlderSets(c, name, rsName) then Scaled(current[n], 0, puts.setSize(n)) else current[n]
  }

  ghost function SyncedPods(c: Cluster, rsName: string, wanted: set<string>, template: string, puts: Puts): map<string, Pod> {
    SyncPods(c.pods, rsName, wanted, SetPod(rsName, template), puts)
  }

  ghost function SettledPods(c: Cluster, name: string, rsName: string, wanted: set<string>, template: string, puts: Puts): map<string, Pod> {
    var synced := SyncedPods(c, rsName, wanted, template, puts);
    map n | n in synced && !Retired(c, OlderSets(c, name, rsName), n) :: synced[n]
  }

  /** What the reconcile leaves, field by field, when nothing is refused. */
  ghost function Settled(c: Cluster, name: string, replicas: int, template: string, puts: Puts): Cluster
    requires replicas >= 0
  {
    var rsName, desired, wanted := SetName(name, template), Capped(replicas), WantedOf(name, replicas, template);
    SyncStatus(c.(sets := SettledSets(c, name, rsName, desired, template, puts),
                  pods := SettledPods(c, name, rsName, wanted, template, puts)), name, desired, false)
  }

  /** Pod `n` belongs to one of the old ReplicaSets. */
  ghost predicate Retired(c: Cluster, older: set<string>, n: string) {
    n in c.pods && exists o :: o in older && OwnedBy(c.pods[n].owners, o)
  }

  lemma CurrentOwned(c: Cluster, name: string, rsName: string, desired: int, template: string, puts: Puts)
    requires Unrefused(puts)
    ensures var current := CurrentSet(c, name, rsName, desired, template, puts);
      && current.Keys == c.sets.Keys + {rsName}
      && OwnedSets(current, name) - {rsName} == OwnedSets(c.sets, name) - {rsName}
      && current[rsName].replicas == desired
  {
    hide OwnedBy;
  }

  lemma OldOwners(older: seq<string>, chosen: set<string>, rsName: string, owners: seq<OwnerRef>)
    requires forall n :: n in older && n != rsName <==> n in chosen
    ensures OwnedByAny(owners, older, rsName) <==> exists o :: o in chosen && OwnedBy(owners, o)
  {
    hide OwnedBy;
    if o :| o in chosen && OwnedBy(owners, o) {
      assert o in older;
      var i :| 0 <= i < |older| && older[i] == o;
    }
  }

  /** The state in which old ReplicaSets begin to be retired. */
  ghost function Current(c: Cluster, name: string, rsName: string, desired: int, wanted: set<string>, template: string, puts: Puts): Cluster {
    c.(sets := CurrentSet(c, name, rsName, desired, template, puts), pods := SyncedPods(c, rsName, wanted, template, puts))
  }

  lemma SetsComposed(c: Cluster, name: string, rsName: string, desired: int, wanted: set<string>, template: string, puts: Puts)
    requires Unrefused(puts) && SetsFit(CurrentSet(c, name, rsName, desired, template, puts))
    ensures var current := Current(c, name, rsName, desired, wanted, template, puts);
      Retire(current, SeenSets(current.sets, name), rsName, puts).sets == SettledSets(c, name, rsName, desired, template, puts)
  {
    hide SyncedPods, OwnedBy, Scaled, SeenSets, Retire, CurrentSet, SetsFit;
    var current := Current(c, name, rsName, desired, wanted, template, puts);
    CurrentOwned(c, name, rsName, desired, template, puts);
    SeenAllSets(current.sets, name);
    RetireSets(current, SeenSets(current.sets, name), rsName, puts);
    hide OwnedSets;
  }

  lemma PodsComposed(c: Cluster, name: string, rsName: string, desired: int, wanted: set<string>, template: string, puts: Puts)
    requires Unrefused(puts) && SetsFit(CurrentSet(c, name, rsName, desired, template, puts))
    requires PodsFit(SyncedPods(c, rsName, wanted, template, puts)) && PodsFit(c.pods)
    ensures var current := Current(c, name, rsName, desired, wanted, template, puts);
      Retire(current, SeenSets(current.sets, name), rsName, puts).pods == SettledPods(c, name, rsName, wanted, template, puts)
  {
    hide OwnedBy, Scaled, SeenSets, Retire, CurrentSet, SyncPods, OwnedByAny, Retired;
    var current := Current(c, name, rsName, desired, wanted, template, puts);
    var older := SeenSets(current.sets, name);
    CurrentOwned(c, name, rsName, desired, template, puts);
    SeenAllSets(current.sets, name);
    RetirePods(current, older, rsName, puts);
    var chosen := OlderSets(c, name, rsName);
    NewPodsStay(c, rsName, wanted, SetPod(rsName, template), chosen, puts);
    forall n | n in current.pods ensures OwnedByAny(current.pods[n].owners, older, rsName) <==> Retired(c, chosen, n) {
      OldOwners(older, chosen, rsName, current.pods[n].owners);
    }
    hide OwnedSets, SetPod, SyncedPods;
  }

  /** The steps of the reconcile, composed. */
  lemma Composed(c: Cluster, name: string, replicas: int, template: string, puts: Puts)
    requires replicas >= 0 && OnePage(c, name, replicas, template, puts) && Unrefused(puts)
    ensures MaterializeDeployment(c, name, replicas, template, puts) == Settled(c, name, replicas, template, puts)
  {
    hide OwnedBy, SyncPods, SeenSets, Retire, CurrentSet, Scaled, SetPod, SetName, SettledPods, SettledSets, SyncStatus, ReplicaPodNames;
    var rsName, desired, wanted := SetName(name, template), Capped(replicas), WantedOf(name, replicas, template);
    var current := Current(c, name, rsName, desired, wanted, template, puts);
    CurrentOwned(c, name, rsName, desired, template, puts);
    ForeseenCovers(c.pods, wanted, puts);
    SyncedFit(c.pods, rsName, wanted, SetPod(rsName, template), puts);
    SetsComposed(c, name, rsName, desired, wanted, template, puts);
    PodsComposed(c, name, rsName, desired, wanted, template, puts);
    RetireSets(current, SeenSets(current.sets, name), rsName, puts);
  }

  /** After the sync, a pod of an old ReplicaSet is one that was there before. */
  lemma NewPodsStay(c: Cluster, rsName: string, wanted: set<string>, pod: Pod, older: set<string>, puts: Puts)
    requires pod == SetPod(rsName, pod.template) && rsName !in older
    ensures var after := SyncPods(c.pods, rsName, wanted, pod, puts);
      forall n :: n in after ==> ((exists o :: o in older && OwnedBy(after[n].owners, o)) <==> Retired(c, older, n))
  {
    SyncEffect(c.pods, rsName, wanted, pod, puts);
    assert forall o :: OwnedBy(pod.owners, o) ==> o == rsName;
    hide SyncPods, OwnedBy;
  }

  /**
   * Convergence. With one-page listings, one owner per pod and no refused put: the current
   * ReplicaSet has the desired count, each older one has no replicas and no pods, the
   * Deployment's status says so, and the current ReplicaSet owns exactly the wanted pods
   * that no one else holds.
   */
  lemma DeploymentConverges(c: Cluster, name: string, replicas: int, template: string, puts: Puts)
    requires replicas >= 0 && Reachable(c, name, replicas, template, puts)
    ensures var rsName, desired, wanted := SetName(name, template), Capped(replicas), WantedOf(name, replicas, template);
      var r := MaterializeDeployment(c, name, replicas, template, puts);
      && rsName in r.sets && r.sets[rsName].replicas == desired
      && (forall o :: o in OwnedSets(c.sets, name) && o != rsName ==>
            o in r.sets && r.sets[o].replicas == 0 && OwnedPods(r.pods, o) == {})
      && (name in c.deployments ==>
            && name in r.deployments
            && r.deployments[name].status == Counts(desired, desired, desired)
            && r.deployments[name].updated == desired)
      && OwnedPods(r.pods, rsName) == wanted - Foreign(c.pods, rsName, wanted)
  {
    hide MaterializeDeployment, SettledSets, SettledPods, CurrentSet, OwnedBy, SetName, WantedOf;
    hide SetsFit, PodsFit, OnOnePage, SingleOwners, Retired, OwnedSets, OwnedPods, Foreign, SetPod;
    SettledFields(c, name, replicas, template, puts);
    Composed(c, name, replicas, template, puts);
    var rsName, desired, wanted := SetName(name, template), Capped(replicas), WantedOf(name, replicas, template);
    SettledSetsEffect(c, name, rsName, desired, template, puts);
    ForeseenCovers(c.pods, wanted, puts);
    SettledPodsEffect(c, name, rsName, wanted, template, puts);
  }

  function CurrentOf(c: Cluster, name: string, rsName: string, desired: int, template: string, puts: Puts): ReplicaSet {
    if rsName in c.sets then Scaled(c.sets[rsName], desired, puts.setSize(rsName))
    else NewSet(name, desired, template, puts.setSize(rsName))
  }

  /** A scaled ReplicaSet reports the count it was given; one that has it already is left alone. */
  lemma ScaledIs(rs: ReplicaSet, replicas: int, size: nat)
    ensures Scaled(rs, replicas, size) == if rs.replicas == replicas then rs
      else ReplicaSet(rs.owners, replicas, rs.template, Counts(replicas, replicas, replicas), size)
  {
  }

  lemma NewSetIs(name: string, desired: int, template: string, size: nat)
    ensures NewSet(name, desired, template, size)
      == ReplicaSet([OwnerRef("apps/v1", "Deployment", name, true)], desired, template, Counts(desired, desired, desired), size)
  {
  }

  lemma SettledSetsEffect(c: Cluster, name: string, rsName: string, desired: int, template: string, puts: Puts)
    requires Unrefused(puts)
    ensures var sets := SettledSets(c, name, rsName, desired, template, puts);
      && sets.Keys == c.sets.Keys + {rsName}
      && sets[rsName].replicas == desired
      && sets[rsName] == CurrentOf(c, name, rsName, desired, template, puts)
      && (forall o :: o in OlderSets(c, name, rsName) ==> o in c.sets && sets[o] == Scaled(c.sets[o], 0, puts.setSize(o)))
      && (forall o :: o in c.sets && o !in OwnedSets(c.sets, name) && o != rsName ==> sets[o] == c.sets[o])
  {
    hide OwnedBy;
  }

  lemma SettledPodsNames(c: Cluster, name: string, rsName: string, wanted: set<string>, template: string, puts: Puts)
    requires PodsFit(c.pods) && SingleOwners(c.pods) && Unrefused(puts)
    ensures var pods := SettledPods(c, name, rsName, wanted, template, puts);
      && (forall n :: n in pods <==>
           || (n in wanted && n !in c.pods)
           || (n in c.pods && !Retired(c, OlderSets(c, name, rsName), n) && (n in wanted || !OwnedBy(c.pods[n].owners, rsName))))
      && (forall n :: n in pods ==> pods[n] == if n in c.pods then c.pods[n] else SetPod(rsName, template).(size := puts.podSize(n)))
  {
    hide OwnedBy, SyncPods, SetPod, OwnedSets, OlderSets, PodsFit, Seen, Retired;
    SeenAll(c.pods, rsName);
    SyncEffect(c.pods, rsName, wanted, SetPod(rsName, template), puts);
    NewNotRetired(c, OlderSets(c, name, rsName));
  }

  lemma NewNotRetired(c: Cluster, older: set<string>)
    ensures forall n :: n !in c.pods ==> !Retired(c, older, n)
  {
  }

  lemma OwnNotRetired(c: Cluster, name: string, rsName: string)
    requires SingleOwners(c.pods)
    ensures forall n :: n in c.pods && OwnedBy(c.pods[n].owners, rsName) ==> !Retired(c, OlderSets(c, name, rsName), n)
  {
    hide OwnedBy, OwnedSets;
  }

  lemma SettledPodsEffect(c: Cluster, name: string, rsName: string, wanted: set<string>, template: string, puts: Puts)
    requires PodsFit(c.pods) && SingleOwners(c.pods) && Unrefused(puts)
    ensures var pods := SettledPods(c, name, rsName, wanted, template, puts);
      && OwnedPods(pods, rsName) == wanted - Foreign(c.pods, rsName, wanted)
      && (forall o :: o in OlderSets(c, name, rsName) ==> OwnedPods(pods, o) == {})
      && (forall n :: n in pods <==>
           || (n in wanted && n !in c.pods)
           || (n in c.pods && !Retired(c, OlderSets(c, name, rsName), n) && (n in wanted || !OwnedBy(c.pods[n].owners, rsName))))
      && (forall n :: n in pods ==> pods[n] == if n in c.pods then c.pods[n] else SetPod(rsName, template).(size := puts.podSize(n)))
  {
    hide OwnedBy, SettledPods, SetPod, OwnedSets, OlderSets, PodsFit, SingleOwners;
    var pods, older := SettledPods(c, name, rsName, wanted, template, puts), OlderSets(c, name, rsName);
    SettledPodsNames(c, name, rsName, wanted, template, puts);
    OnlyOwner(rsName, template);
    NotOlder(c, name, rsName);
    OwnNotRetired(c, name, rsName);
    forall o | o in older ensures OwnedPods(pods, o) == {} {
      assert forall n :: n in pods && n in c.pods ==> !OwnedBy(pods[n].owners, o);
    }
    hide Retired;
    forall n ensures n in OwnedPods(pods, rsName) <==> n in wanted - Foreign(c.pods, rsName, wanted) {
      assert n in OwnedPods(pods, rsName) <==> n in pods && OwnedBy(pods[n].owners, rsName);
    }
  }

  lemma NotOlder(c: Cluster, name: string, rsName: string)
    ensures rsName !in OlderSets(c, name, rsName)
  {
  }

  lemma OnlyOwner(rsName: string, template: string)
    ensures forall o :: OwnedBy(SetPod(rsName, template).owners, o) <==> o == rsName
  {
    assert SetPod(rsName, template).owners[0].name == rsName;
  }

  lemma NothingTaken(wanted: set<string>, foreign: set<string>)
    requires foreign <= wanted
    ensures wanted - foreign == wanted <==> foreign == {}
  {
    assert foreign == wanted - (wanted - foreign);
  }

  /** The current ReplicaSet owns exactly the wanted pods precisely when no wanted name was held by someone else. */
  lemma DeploymentConvergesExactly(c: Cluster, name: string, replicas: int, template: string, puts: Puts)
    requires replicas >= 0 && Reachable(c, name, replicas, template, puts)
    ensures var rsName, wanted := SetName(name, template), WantedOf(name, replicas, template);
      var r := MaterializeDeployment(c, name, replicas, template, puts);
      OwnedPods(r.pods, rsName) == wanted <==> Foreign(c.pods, rsName, wanted) == {}
  {
    hide MaterializeDeployment, OwnedBy, SetName, WantedOf, Foreign, OwnedSets;
    DeploymentConverges(c, name, replicas, template, puts);
    hide OwnedPods, OlderSets;
    var wanted := WantedOf(name, replicas, template);
    NothingTaken(wanted, Foreign(c.pods, SetName(name, template), wanted));
  }

  /** Retiring only ever removes pods that a retired ReplicaSet owns, whatever the listings show. */
  lemma {:induction false} RetireSpares(c: Cluster, older: seq<string>, rsName: string, puts: Puts)
    ensures var r := Retire(c, older, rsName, puts);
      && (forall n :: n in r.pods ==> n in c.pods && r.pods[n] == c.pods[n])
      && (forall n :: n in c.pods && !OwnedByAny(c.pods[n].owners, older, rsName) ==> n in r.pods)
    decreases |older|
  {
    hide OwnedBy, OwnedByAny, SeenPods;
    if older != [] {
      if older[0] == rsName {
        RetireSpares(c, older[1..], rsName, puts);
      } else {
        SeenAmongOwned(c.pods, older[0]);
        RetireSpares(RetireOne(c, older[0], puts), older[1..], rsName, puts);
      }
      forall n | n in c.pods && !OwnedByAny(c.pods[n].owners, older, rsName) ensures n in Retire(c, older, rsName, puts).pods {
        OwnedByHead(c.pods[n].owners, older, rsName);
      }
    }
  }

  lemma CurrentShape(c: Cluster, name: string, rsName: string, desired: int, template: string, puts: Puts)
    ensures var current := CurrentSet(c, name, rsName, desired, template, puts);
      && (forall o :: o in c.sets && o != rsName ==> o in current && current[o] == c.sets[o])
      && current.Keys == c.sets.Keys + (if rsName in puts.sets then {} else {rsName})
  {
  }

  /** The ReplicaSets on the page, other than the current one, were there before and owned. */
  lemma SeenWereOwned(c: Cluster, name: string, rsName: string, desired: int, template: string, puts: Puts)
    ensures var older := SeenSets(CurrentSet(c, name, rsName, desired, template, puts), name);
      forall o :: o in older && o != rsName ==> o in OlderSets(c, name, rsName)
  {
    hide OwnedBy, CurrentSet, SeenSets;
    CurrentShape(c, name, rsName, desired, template, puts);
    var current := CurrentSet(c, name, rsName, desired, template, puts);
    forall o | o in SeenSets(current, name) && o != rsName ensures o in OlderSets(c, name, rsName) {
      assert o in OwnedSets(current, name);
    }
  }

  lemma NotRetired(c: Cluster, name: string, rsName: string, older: seq<string>, n: string)
    requires n in c.pods && !Retired(c, OlderSets(c, name, rsName), n)
    requires forall o :: o in older && o != rsName ==> o in OlderSets(c, name, rsName)
    ensures !OwnedByAny(c.pods[n].owners, older, rsName)
  {
    hide OwnedBy, OlderSets;
  }

  /** Everything the reconcile has no business with stays as it was, whatever is refused and whatever the listings show. */
  lemma DeploymentFrames(c: Cluster, name: string, replicas: int, template: string, puts: Puts)
    requires replicas >= 0
    ensures var rsName, wanted := SetName(name, template), WantedOf(name, replicas, template);
      var r := MaterializeDeployment(c, name, replicas, template, puts);
      && (forall n :: n in c.pods && !OwnedBy(c.pods[n].owners, rsName) && !Retired(c, OlderSets(c, name, rsName), n) ==>
            n in r.pods && r.pods[n] == c.pods[n])
      && (forall n :: n in r.pods && n !in c.pods ==>
            n in wanted && r.pods[n] == Pod([OwnerRef("apps/v1", "ReplicaSet", rsName, true)], template, puts.podSize(n)))
      && (forall n :: n in r.pods && n in c.pods ==> r.pods[n] == c.pods[n])
      && r.sets.Keys == c.sets.Keys + (if rsName in puts.sets then {} else {rsName})
      && (forall o :: o in c.sets && o != rsName && o !in OwnedSets(c.sets, name) ==> r.sets[o] == c.sets[o])
      && r.deployments.Keys == c.deployments.Keys
      && (forall d :: d in c.deployments && d != name ==> r.deployments[d] == c.deployments[d])
      && r.workloads == c.workloads && r.nodeCount == c.nodeCount
  {
    hide OwnedBy, SyncPods, SeenSets, Retire, CurrentSet, SetPod, SetName, ReplicaPodNames, Retired, OlderSets, OwnedSets, SyncStatus;
    var rsName, desired, wanted := SetName(name, template), Capped(replicas), WantedOf(name, replicas, template);
    if rsName in c.sets || rsName !in puts.sets {
      hide WantedOf, Elements;
      var current := Current(c, name, rsName, desired, wanted, template, puts);
      CurrentShape(c, name, rsName, desired, template, puts);
      SeenWereOwned(c, name, rsName, desired, template, puts);
      RetireSets(current, SeenSets(current.sets, name), rsName, puts);
      PodFrames(c, name, rsName, desired, wanted, template, puts);
      NotOlderUnowned(c, name, rsName);
      StatusFrames(Retire(current, SeenSets(current.sets, name), rsName, puts), name, desired, puts.status);
    }
  }

  lemma StatusFrames(c: Cluster, name: string, desired: int, refused: bool)
    ensures var r := SyncStatus(c, name, desired, refused);
      && r == c.(deployments := r.deployments) && r.deployments.Keys == c.deployments.Keys
      && forall d :: d in c.deployments && d != name ==> r.deployments[d] == c.deployments[d]
  {
  }

  /** A new pod has one owner, the ReplicaSet that controls it, and the Deployment's template. */
  lemma NewPodIs(rsName: string, template: string)
    ensures forall size :: SetPod(rsName, template).(size := size) == Pod([OwnerRef("apps/v1", "ReplicaSet", rsName, true)], template, size)
  {
  }

  lemma PodFrames(c: Cluster, name: string, rsName: string, desired: int, wanted: set<string>, template: string, puts: Puts)
    ensures var current := Current(c, name, rsName, desired, wanted, template, puts);
      var pods := Retire(current, SeenSets(current.sets, name), rsName, puts).pods;
      && (forall n :: n in c.pods && !OwnedBy(c.pods[n].owners, rsName) && !Retired(c, OlderSets(c, name, rsName), n) ==> n in pods)
      && (forall n :: n in pods && n !in c.pods ==>
            n in wanted && pods[n] == Pod([OwnerRef("apps/v1", "ReplicaSet", rsName, true)], template, puts.podSize(n)))
      && (forall n :: n in pods && n in c.pods ==> pods[n] == c.pods[n])
  {
    NewPodIs(rsName, template);
    hide OwnedBy, OwnedByAny, SyncPods, SeenSets, Retire, CurrentSet, SetPod, Retired, OlderSets, OwnedSets, Seen;
    var current := Current(c, name, rsName, desired, wanted, template, puts);
    var older := SeenSets(current.sets, name);
    SyncEffect(c.pods, rsName, wanted, SetPod(rsName, template), puts);
    SeenWereOwned(c, name, rsName, desired, template, puts);
    RetireSpares(current, older, rsName, puts);
    forall n | n in c.pods && !Retired(c, OlderSets(c, name, rsName), n) ensures !OwnedByAny(c.pods[n].owners, older, rsName) {
      NotRetired(c, name, rsName, older, n);
    }
  }

  lemma NotOlderUnowned(c: Cluster, name: string, rsName: string)
    ensures forall o :: o in OlderSets(c, name, rsName) ==> o in OwnedSets(c.sets, name)
  {
    hide OwnedBy, OwnedSets;
  }

  // ----- a second reconcile -----

  lemma OlderStay(c: Cluster, name: string, rsName: string, desired: int, template: string, r: Cluster, puts: Puts)
    requires Unrefused(puts) && r.sets == SettledSets(c, name, rsName, desired, template, puts)
    ensures OlderSets(r, name, rsName) == OlderSets(c, name, rsName)
  {
    hide OwnedBy, SettledSets;
    SettledSetsEffect(c, name, rsName, desired, template, puts);
    assert forall o :: o in c.sets && o != rsName ==> r.sets[o].owners == c.sets[o].owners;
  }

  lemma SetsSettle(c: Cluster, name: string, rsName: string, desired: int, template: string, r: Cluster, puts: Puts, again: Puts)
    requires Unrefused(puts) && Unrefused(again)
    requires r.sets == SettledSets(c, name, rsName, desired, template, puts)
    ensures SettledSets(r, name, rsName, desired, template, again) == r.sets
    ensures OlderSets(r, name, rsName) == OlderSets(c, name, rsName)
  {
    OlderStay(c, name, rsName, desired, template, r, puts);
    SettledSetsEffect(c, name, rsName, desired, template, puts);
    hide OwnedBy, OlderSets, OwnedSets;
    assert CurrentSet(r, name, rsName, desired, template, again) == r.sets;
  }

  /** Wanted names whose pods the first reconcile reaps because an old ReplicaSet owns them. */
  ghost predicate WantedRetired(c: Cluster, name: string, rsName: string, wanted: set<string>) {
    exists n :: n in wanted && Retired(c, OlderSets(c, name, rsName), n)
  }

  lemma PodsSettle(c: Cluster, name: string, rsName: string, wanted: set<string>, template: string, r: Cluster, puts: Puts, again: Puts)
    requires PodsFit(c.pods) && PodsFit(r.pods) && SingleOwners(c.pods) && SingleOwners(r.pods) && Unrefused(puts) && Unrefused(again)
    requires r.pods == SettledPods(c, name, rsName, wanted, template, puts)
    requires OlderSets(r, name, rsName) == OlderSets(c, name, rsName)
    ensures SettledPods(r, name, rsName, wanted, template, again) == r.pods <==> !WantedRetired(c, name, rsName, wanted)
  {
    hide OwnedBy, SettledPods, OwnedSets, SetPod, OlderSets, PodsFit;
    SettledPodsEffect(c, name, rsName, wanted, template, puts);
    SettledPodsEffect(r, name, rsName, wanted, template, again);
    var second := SettledPods(r, name, rsName, wanted, template, again);
    NoneRetired(c, name, rsName, wanted, template, r, puts);
    if WantedRetired(c, name, rsName, wanted) {
      var n :| n in wanted && Retired(c, OlderSets(c, name, rsName), n);
      assert n !in r.pods && n in second;
    } else {
      forall n ensures n in second <==> n in r.pods {
        assert n in r.pods && OwnedBy(r.pods[n].owners, rsName) ==> n in OwnedPods(r.pods, rsName);
      }
    }
  }

  lemma NoneRetired(c: Cluster, name: string, rsName: string, wanted: set<string>, template: string, r: Cluster, puts: Puts)
    requires PodsFit(c.pods) && SingleOwners(c.pods) && Unrefused(puts)
    requires r.pods == SettledPods(c, name, rsName, wanted, template, puts)
    ensures forall n :: !Retired(r, OlderSets(c, name, rsName), n)
  {
    hide SettledPods, OlderSets, PodsFit;
    SettledPodsEffect(c, name, rsName, wanted, template, puts);
    forall n ensures !Retired(r, OlderSets(c, name, rsName), n) {
      forall o | o in OlderSets(c, name, rsName) && n in r.pods ensures !OwnedBy(r.pods[n].owners, o) {
        assert n !in OwnedPods(r.pods, o);
      }
    }
    hide OwnedBy;
  }

  /**
   * A second reconcile with the same arguments changes no pod, ReplicaSet or count, precisely when
   * no wanted name was held by a pod of an old ReplicaSet (such a pod is reaped only after its
   * name was tried).
   */
  lemma DeploymentSettles(c: Cluster, name: string, replicas: int, template: string, puts: Puts, again: Puts)
    requires replicas >= 0 && Reachable(c, name, replicas, template, puts) && Unrefused(again)
    requires OnePage(MaterializeDeployment(c, name, replicas, template, puts), name, replicas, template, again)
    ensures var rsName, wanted := SetName(name, template), WantedOf(name, replicas, template);
      var r := MaterializeDeployment(c, name, replicas, template, puts);
      MaterializeDeployment(r, name, replicas, template, again) == r <==> !WantedRetired(c, name, rsName, wanted)
  {
    hide MaterializeDeployment, SettledSets, SettledPods, CurrentSet, OwnedBy, SetName, WantedOf, SetPod, WantedRetired, OwnedSets, PodsFit, OnOnePage;
    var rsName, desired, wanted := SetName(name, template), Capped(replicas), WantedOf(name, replicas, template);
    var r := MaterializeDeployment(c, name, replicas, template, puts);
    Composed(c, name, replicas, template, puts);
    ForeseenCovers(c.pods, wanted, puts);
    ForeseenCovers(r.pods, wanted, again);
    SettledFields(c, name, replicas, template, puts);
    SettledSingleOwners(c, name, rsName, wanted, template, puts);
    SetsSettle(c, name, rsName, desired, template, r, puts, again);
    PodsSettle(c, name, rsName, wanted, template, r, puts, again);
    Composed(r, name, replicas, template, again);
    StatusSettles(r, name, desired, SettledSets(r, name, rsName, desired, template, again), SettledPods(r, name, rsName, wanted, template, again));
  }

  lemma StatusSettles(r: Cluster, name: string, desired: int, sets: map<string, ReplicaSet>, pods: map<string, Pod>)
    requires SyncStatus(r, name, desired, false) == r && sets == r.sets
    ensures SyncStatus(r.(sets := sets, pods := pods), name, desired, false) == r <==> pods == r.pods
  {
  }

  lemma SettledFields(c: Cluster, name: string, replicas: int, template: string, puts: Puts)
    requires replicas >= 0
    ensures var r := Settled(c, name, replicas, template, puts);
      && r.sets == SettledSets(c, name, SetName(name, template), Capped(replicas), template, puts)
      && r.pods == SettledPods(c, name, SetName(name, template), WantedOf(name, replicas, template), template, puts)
      && SyncStatus(r, name, Capped(replicas), false) == r
  {
    hide SettledSets, SettledPods, SetName, WantedOf;
  }

  lemma SettledSingleOwners(c: Cluster, name: string, rsName: string, wanted: set<string>, template: string, puts: Puts)
    requires PodsFit(c.pods) && SingleOwners(c.pods) && Unrefused(puts)
    ensures SingleOwners(SettledPods(c, name, rsName, wanted, template, puts))
  {
    hide SettledPods, OwnedBy, SetPod, OwnedPods, Retired, OlderSets, PodsFit;
    SettledPodsEffect(c, name, rsName, wanted, template, puts);
    OnlyOwner(rsName, template);
  }

  lemma {:induction false} TotalWithin(sizes: map<string, nat>, each: nat)
    requires forall n :: n in sizes ==> sizes[n] <= each
    ensures Total(sizes) <= |sizes| * each
    decreases |sizes|
  {
    if sizes != map[] {
      var p := Pick(sizes.Keys);
      TotalExtract(sizes, p);
      SizeWithout(sizes, p);
      TotalWithin(sizes - {p}, each);
      ScaleOne(|sizes|, each);
    }
  }

  // ----- room for both reconciles -----

  /** Room, in number and in bytes, for the wanted pods and for one more ReplicaSet, none of them longer than said. */
  ghost predicate Room(c: Cluster, desired: nat, podMax: nat, setMax: nat) {
    && |c.pods| + desired <= MAX_PODS && Total(PodSizes(c.pods)) + desired * podMax <= MAX_BYTES
    && |c.sets| < MAX_PODS && (|c.sets| + 1) * setMax <= MAX_BYTES
    && forall n :: n in c.sets ==> c.sets[n].size <= setMax
  }

  ghost predicate Bounded(puts: Puts, podMax: nat, setMax: nat) {
    forall n :: puts.podSize(n) <= podMax && puts.setSize(n) <= setMax
  }

  lemma SetsWithin(sets: map<string, ReplicaSet>, count: nat, setMax: nat)
    requires |sets| <= count <= MAX_PODS && count * setMax <= MAX_BYTES && forall n :: n in sets ==> sets[n].size <= setMax
    ensures SetsFit(sets)
  {
    hide Total;
    SetSizesKeys(sets);
    assert |SetSizes(sets)| == |SetSizes(sets).Keys| == |sets.Keys| == |sets|;
    TotalWithin(SetSizes(sets), setMax);
    ScaleDown(|sets|, count, setMax);
  }

  lemma CurrentWithin(c: Cluster, name: string, rsName: string, desired: int, template: string, puts: Puts, podMax: nat, setMax: nat)
    requires Bounded(puts, podMax, setMax) && forall n :: n in c.sets ==> c.sets[n].size <= setMax
    ensures var sets := CurrentSet(c, name, rsName, desired, template, puts);
      sets.Keys <= c.sets.Keys + {rsName} && forall n :: n in sets ==> sets[n].size <= setMax
  {
  }

  lemma OneSetMore(sets: map<string, ReplicaSet>, before: map<string, ReplicaSet>, rsName: string)
    requires sets.Keys <= before.Keys + {rsName}
    ensures |sets| <= |before| + 1
  {
    SubsetSize(sets.Keys, before.Keys + {rsName});
    assert |before.Keys + {rsName}| <= |before.Keys| + 1;
    assert |sets| == |sets.Keys| && |before| == |before.Keys|;
  }

  lemma RoomNow(c: Cluster, name: string, replicas: int, template: string, puts: Puts, podMax: nat, setMax: nat)
    requires replicas >= 0 && Room(c, Capped(replicas), podMax, setMax) && Bounded(puts, podMax, setMax)
    ensures OnePage(c, name, replicas, template, puts)
  {
    hide SetName, Total, OnePage;
    SetSizesKeys(c.sets);
    assert |SetSizes(c.sets)| == |SetSizes(c.sets).Keys| == |c.sets.Keys| == |c.sets|;
    TotalWithin(SetSizes(c.sets), setMax);
    assert (|c.sets| + 1) * setMax == |c.sets| * setMax + setMax;
    RoomFitsOnePage(c, name, replicas, template, puts, podMax);
  }

  lemma FitsByTotals(sizes: map<string, nat>)
    requires |sizes| <= MAX_PODS && Total(sizes) <= MAX_BYTES
    ensures OnOnePage(sizes)
  {
    hide Total;
  }

  /** The pods of `before` that are still there. */
  ghost function Staying(before: map<string, Pod>, after: map<string, Pod>): map<string, Pod> {
    map n | n in before && n in after :: before[n]
  }

  lemma LaterPodsFit(before: map<string, Pod>, after: map<string, Pod>, wanted: set<string>, desired: nat, again: Puts, podMax: nat)
    requires forall n :: again.podSize(n) <= podMax
    requires |before| + desired <= MAX_PODS && Total(PodSizes(before)) + desired * podMax <= MAX_BYTES && |wanted| <= desired
    requires forall n :: n in after ==> if n in before then after[n] == before[n] else n in wanted && after[n].size <= podMax
    ensures OnOnePage(Foreseen(after, wanted, again))
  {
    hide Total, OnOnePage;
    var staying := Staying(before, after);
    var mixed := again.(podSize := (n: string) => if n in after && n !in before then after[n].size else again.podSize(n));
    LaterForeseen(before, after, wanted, again, mixed);
    hide Foreseen;
    RoomForPods(staying, wanted, mixed, podMax);
    ScaleDown(|wanted|, desired, podMax);
    StayingSmaller(before, after);
    hide Staying;
    FitsByTotals(Foreseen(after, wanted, again));
  }

  lemma StayingSmaller(before: map<string, Pod>, after: map<string, Pod>)
    ensures |Staying(before, after)| <= |before| && Total(PodSizes(Staying(before, after))) <= Total(PodSizes(before))
  {
    hide Total;
    var staying := Staying(before, after);
    TotalOfPart(PodSizes(staying), PodSizes(before));
    SubsetSize(staying.Keys, before.Keys);
    assert |staying| == |staying.Keys| && |before| == |before.Keys|;
  }

  lemma LaterForeseen(before: map<string, Pod>, after: map<string, Pod>, wanted: set<string>, again: Puts, mixed: Puts)
    requires forall n :: n in after ==> if n in before then after[n] == before[n] else n in wanted
    requires forall n :: mixed.podSize(n) == if n in after && n !in before then after[n].size else again.podSize(n)
    ensures Foreseen(after, wanted, again) == Foreseen(Staying(before, after), wanted, mixed)
  {
  }

  lemma SettledWithin(c: Cluster, name: string, rsName: string, desired: int, template: string, puts: Puts, podMax: nat, setMax: nat)
    requires Bounded(puts, podMax, setMax) && forall n :: n in c.sets ==> c.sets[n].size <= setMax
    ensures var sets := SettledSets(c, name, rsName, desired, template, puts);
      sets.Keys <= c.sets.Keys + {rsName} && forall n :: n in sets ==> sets[n].size <= setMax
  {
    hide CurrentSet, OlderSets;
    CurrentWithin(c, name, rsName, desired, template, puts, podMax, setMax);
  }

  lemma WantedSize(name: string, replicas: int, template: string)
    requires replicas >= 0
    ensures |WantedOf(name, replicas, template)| <= Capped(replicas)
  {
    hide SetName, Numbered;
    ElementsSize(ReplicaPodNames(SetName(name, template), Capped(replicas)));
  }

  lemma RoomForLaterSets(c: Cluster, r: Cluster, name: string, desired: int, template: string, puts: Puts, again: Puts, podMax: nat, setMax: nat)
    requires Bounded(puts, podMax, setMax) && Bounded(again, podMax, setMax)
    requires |c.sets| < MAX_PODS && (|c.sets| + 1) * setMax <= MAX_BYTES && forall n :: n in c.sets ==> c.sets[n].size <= setMax
    requires r.sets == SettledSets(c, name, SetName(name, template), desired, template, puts)
    ensures SetsFit(CurrentSet(r, name, SetName(name, template), desired, template, again))
  {
    hide SetName, SettledSets, CurrentSet, SetsFit;
    var rsName := SetName(name, template);
    SettledWithin(c, name, rsName, desired, template, puts, podMax, setMax);
    CurrentWithin(r, name, rsName, desired, template, again, podMax, setMax);
    var sets := CurrentSet(r, name, rsName, desired, template, again);
    OneSetMore(sets, c.sets, rsName);
    SetsWithin(sets, |c.sets| + 1, setMax);
  }

  /** Room for the second reconcile's pods, in what the first one left or any part of it. */
  lemma RoomForLaterPods(c: Cluster, after: map<string, Pod>, name: string, replicas: int, template: string, puts: Puts, again: Puts, podMax: nat, setMax: nat)
    requires replicas >= 0 && Bounded(puts, podMax, setMax) && Bounded(again, podMax, setMax)
    requires |c.pods| + Capped(replicas) <= MAX_PODS && Total(PodSizes(c.pods)) + Capped(replicas) * podMax <= MAX_BYTES
    requires var pods := MaterializeDeployment(c, name, replicas, template, puts).pods;
      forall n :: n in after ==> n in pods && after[n] == pods[n]
    ensures OnOnePage(Foreseen(after, WantedOf(name, replicas, template), again))
  {
    hide MaterializeDeployment, SetName, WantedOf, SetPod, Total, OnOnePage, Foreseen, OwnedSets, Retired, OlderSets, OwnedBy, PodSizes;
    DeploymentFrames(c, name, replicas, template, puts);
    WantedSize(name, replicas, template);
    forall n | n in after && n !in c.pods ensures after[n].size <= podMax {
      assert after[n].size == puts.podSize(n);
    }
    LaterPodsFit(c.pods, after, WantedOf(name, replicas, template), Capped(replicas), again, podMax);
  }

  lemma RoomLater(c: Cluster, name: string, replicas: int, template: string, puts: Puts, again: Puts, podMax: nat, setMax: nat)
    requires replicas >= 0 && Room(c, Capped(replicas), podMax, setMax) && Bounded(puts, podMax, setMax) && Bounded(again, podMax, setMax)
    requires Unrefused(puts)
    ensures OnePage(MaterializeDeployment(c, name, replicas, template, puts), name, replicas, template, again)
  {
    hide MaterializeDeployment, SettledSets, SettledPods, SetName, WantedOf, CurrentSet, Total, OnOnePage, Foreseen, SetsFit, Bounded;
    var r := MaterializeDeployment(c, name, replicas, template, puts);
    RoomNow(c, name, replicas, template, puts, podMax, setMax);
    Composed(c, name, replicas, template, puts);
    SettledFields(c, name, replicas, template, puts);
    RoomForLaterPods(c, r.pods, name, replicas, template, puts, again, podMax, setMax);
    RoomForLaterSets(c, r, name, Capped(replicas), template, puts, again, podMax, setMax);
  }

  /** DeploymentSettles with everything said of the state before: there is room for what both reconciles put. */
  lemma DeploymentSettlesInRoom(c: Cluster, name: string, replicas: int, template: string, puts: Puts, again: Puts, podMax: nat, setMax: nat)
    requires replicas >= 0 && SingleOwners(c.pods) && Unrefused(puts) && Unrefused(again)
    requires Room(c, Capped(replicas), podMax, setMax) && Bounded(puts, podMax, setMax) && Bounded(again, podMax, setMax)
    ensures var r := MaterializeDeployment(c, name, replicas, template, puts);
      MaterializeDeployment(r, name, replicas, template, again) == r
      <==> !WantedRetired(c, name, SetName(name, template), WantedOf(name, replicas, template))
  {
    hide MaterializeDeployment, SetName, WantedOf, WantedRetired, OnePage, Room, Bounded;
    RoomNow(c, name, replicas, template, puts, podMax, setMax);
    RoomLater(c, name, replicas, template, puts, again, podMax, setMax);
    DeploymentSettles(c, name, replicas, template, puts, again);
  }

  // ----- a wanted name held by an old pod -----

  lemma SmallFits(sizes: map<string, nat>, a: string, b: string)
    requires sizes.Keys <= {a, b} && forall n :: n in sizes ==> sizes[n] <= 1000
    ensures OnOnePage(sizes)
  {
    assert |sizes| == |sizes.Keys|;
    SubsetSize(sizes.Keys, {a, b});
    TotalWithin(sizes, 1000);
  }

  const OLD_SET := ReplicaSet([OwnerRef("apps/v1", "Deployment", "web", true)], 0, "", Counts(0, 0, 0), 1000)
  const OLD_POD := Pod([OwnerRef("apps/v1", "ReplicaSet", "old", true)], "", 1000)
  const SMALL_PUTS := Puts({}, {}, false, (n: string) => 1000, (n: string) => 1000)

  /** A Deployment of one replica whose pod's name an old ReplicaSet's pod still has. */
  function HeldCluster(held: string): Cluster {
    Cluster(map[held := OLD_POD], map["old" := OLD_SET], map["web" := Deployment(1, "{}", Counts(0, 0, 0), 0)], map[], 3)
  }

  lemma HeldShape(held: string)
    ensures var c := HeldCluster(held);
      && SingleOwners(c.pods) && OwnedSets(c.sets, "web") == {"old"}
      && forall o :: OwnedBy(OLD_POD.owners, o) <==> o == "old"
  {
    assert OLD_SET.owners[0].name == "web" && OLD_POD.owners[0].name == "old";
  }

  lemma OneReplica(rsName: string)
    ensures ReplicaPodNames(rsName, 1) == [rsName + "-" + Suffix(rsName, 0)]
  {
    hide Suffix;
    assert ReplicaPodNames(rsName, 1)[0] == rsName + "-" + Suffix(rsName, 0);
  }

  lemma OneElement(name: string)
    ensures Elements([name]) == {name}
  {
  }

  lemma WantedOne(name: string, template: string)
    ensures WantedOf(name, 1, template) == {SetName(name, template) + "-" + Suffix(SetName(name, template), 0)}
  {
    hide SetName, Suffix, ReplicaPodNames, Elements;
    var rsName := SetName(name, template);
    OneReplica(rsName);
    OneElement(rsName + "-" + Suffix(rsName, 0));
  }

  lemma NotOld(template: string)
    ensures SetName("web", template) != "old"
  {
    assert SetName("web", template)[0] == 'w';
  }

  lemma OnePageOfTwo(c: Cluster, name: string, template: string, held: string, other: string)
    requires WantedOf(name, 1, template) == {held}
    requires c.pods.Keys <= {held} && c.sets.Keys <= {other, SetName(name, template)}
    requires (forall n :: n in c.pods ==> c.pods[n].size <= 1000) && forall n :: n in c.sets ==> c.sets[n].size <= 1000
    ensures OnePage(c, name, 1, template, SMALL_PUTS)
  {
    hide WantedOf, SetName, OnOnePage;
    SmallFits(Foreseen(c.pods, {held}, SMALL_PUTS), held, held);
    TwoSetsFit(c, name, SetName(name, template), template, other);
  }

  lemma TwoSetsFit(c: Cluster, name: string, rsName: string, template: string, other: string)
    requires c.sets.Keys <= {other, rsName} && forall n :: n in c.sets ==> c.sets[n].size <= 1000
    ensures SetsFit(CurrentSet(c, name, rsName, 1, template, SMALL_PUTS))
  {
    hide OnOnePage;
    var sets := CurrentSet(c, name, rsName, 1, template, SMALL_PUTS);
    SetSizesKeys(sets);
    assert forall n :: n in sets ==> sets[n].size <= 1000;
    hide CurrentSet;
    SmallFits(SetSizes(sets), other, rsName);
  }

  lemma SettledSmall(c: Cluster, name: string, template: string)
    requires forall n :: n in c.sets ==> c.sets[n].size <= 1000
    ensures var sets := SettledSets(c, name, SetName(name, template), 1, template, SMALL_PUTS);
      sets.Keys == c.sets.Keys + {SetName(name, template)} && forall n :: n in sets ==> sets[n].size <= 1000
  {
    hide SetName, OlderSets;
  }

  /** There the wanted pod is missing after the first reconcile, and the second one is needed. */
  lemma HeldNameIsMissed()
    ensures var rsName := SetName("web", "{}");
      var c := HeldCluster(rsName + "-" + Suffix(rsName, 0));
      var r := MaterializeDeployment(c, "web", 1, "{}", SMALL_PUTS);
      && Reachable(c, "web", 1, "{}", SMALL_PUTS)
      && OwnedPods(r.pods, rsName) != WantedOf("web", 1, "{}")
      && MaterializeDeployment(r, "web", 1, "{}", SMALL_PUTS) != r
  {
    hide MaterializeDeployment, SetName, WantedOf, OnOnePage, OnePage, SingleOwners, OwnedSets, OwnedBy, SettledSets, SettledPods, OwnedPods, PodsFit;
    var rsName := SetName("web", "{}");
    var held := rsName + "-" + Suffix(rsName, 0);
    hide Suffix;
    var c := HeldCluster(held);
    WantedOne("web", "{}");
    NotOld("{}");
    HeldShape(held);
    OnePageOfTwo(c, "web", "{}", held, "old");
    var r := MaterializeDeployment(c, "web", 1, "{}", SMALL_PUTS);
    HeldAfter(c, held, r);
    DeploymentConvergesExactly(c, "web", 1, "{}", SMALL_PUTS);
    assert held in Foreign(c.pods, rsName, {held});
    assert "old" in OlderSets(c, "web", rsName);
    assert Retired(c, OlderSets(c, "web", rsName), held);
    DeploymentSettles(c, "web", 1, "{}", SMALL_PUTS, SMALL_PUTS);
  }

  lemma OnePageCovers(c: Cluster, name: string, template: string)
    requires OnePage(c, name, 1, template, SMALL_PUTS)
    ensures PodsFit(c.pods)
  {
    ForeseenCovers(c.pods, WantedOf(name, 1, template), SMALL_PUTS);
  }

  lemma HeldAfter(c: Cluster, held: string, r: Cluster)
    requires c == HeldCluster(held) && WantedOf("web", 1, "{}") == {held}
    requires Reachable(c, "web", 1, "{}", SMALL_PUTS) && r == MaterializeDeployment(c, "web", 1, "{}", SMALL_PUTS)
    ensures OnePage(r, "web", 1, "{}", SMALL_PUTS)
  {
    hide MaterializeDeployment, SetName, WantedOf, OnOnePage, OnePage, SingleOwners, OwnedSets, OwnedBy, SettledSets, SettledPods, OwnedPods, PodsFit, SetPod, Retired;
    Composed(c, "web", 1, "{}", SMALL_PUTS);
    SettledFields(c, "web", 1, "{}", SMALL_PUTS);
    SettledSmall(c, "web", "{}");
    DeploymentFrames(c, "web", 1, "{}", SMALL_PUTS);
    OnePageCovers(c, "web", "{}");
    SettledPodsEffect(c, "web", SetName("web", "{}"), {held}, "{}", SMALL_PUTS);
    OnePageOfTwo(r, "web", "{}", held, "old");
  }

  // ----- what the reconcile writes, word by word -----

  /**
   * The current ReplicaSet: if new, it is controlled by the Deployment and has its template and
   * count; otherwise only its count, if that differed, and what it reports. Each older one is
   * brought to zero, unless it is there already. The Deployment only changes what it reports.
   */
  lemma DeploymentWrites(c: Cluster, name: string, replicas: int, template: string, puts: Puts)
    requires replicas >= 0 && Reachable(c, name, replicas, template, puts)
    ensures var rsName, desired := SetName(name, template), if replicas > 64 then 64 else replicas;
      var r := MaterializeDeployment(c, name, replicas, template, puts);
      && rsName in r.sets
      && (rsName !in c.sets ==>
            r.sets[rsName] == ReplicaSet(
              [OwnerRef("apps/v1", "Deployment", name, true)], desired, template, Counts(desired, desired, desired), puts.setSize(rsName)))
      && (rsName in c.sets && c.sets[rsName].replicas == desired ==> r.sets[rsName] == c.sets[rsName])
      && (rsName in c.sets && c.sets[rsName].replicas != desired ==>
            r.sets[rsName] == c.sets[rsName].(replicas := desired, status := Counts(desired, desired, desired), size := puts.setSize(rsName)))
      && (forall o :: o in OwnedSets(c.sets, name) && o != rsName ==> o in r.sets)
      && (forall o :: o in OwnedSets(c.sets, name) && o != rsName && c.sets[o].replicas == 0 ==> r.sets[o] == c.sets[o])
      && (forall o :: o in OwnedSets(c.sets, name) && o != rsName && c.sets[o].replicas != 0 ==>
            r.sets[o] == c.sets[o].(replicas := 0, status := Counts(0, 0, 0), size := puts.setSize(o)))
      && (name in c.deployments ==> name in r.deployments)
      && (name in c.deployments ==>
            r.deployments[name] == c.deployments[name].(status := Counts(desired, desired, desired), updated := desired))
  {
    hide MaterializeDeployment, SettledSets, SettledPods, CurrentSet, OwnedBy, SetName, WantedOf, Scaled, NewSet, OwnedSets;
    hide SetsFit, PodsFit, OnOnePage, SingleOwners, Retired, OwnedPods, Foreign, SetPod;
    SettledFields(c, name, replicas, template, puts);
    Composed(c, name, replicas, template, puts);
    var rsName, desired := SetName(name, template), Capped(replicas);
    SettledSetsEffect(c, name, rsName, desired, template, puts);
    NewSetIs(name, desired, template, puts.setSize(rsName));
    if rsName in c.sets {
      ScaledIs(c.sets[rsName], desired, puts.setSize(rsName));
    }
    forall o | o in OlderSets(c, name, rsName) ensures o in c.sets && SettledSets(c, name, rsName, desired, template, puts)[o]
      == if c.sets[o].replicas == 0 then c.sets[o] else c.sets[o].(replicas := 0, status := Counts(0, 0, 0), size := puts.setSize(o))
    {
      ScaledIs(c.sets[o], 0, puts.setSize(o));
    }
  }

  lemma SameSetExactly(name: string, a: string, b: string)
    ensures SetName(name, a) == SetName(name, b) <==> TemplateHash(a) == TemplateHash(b)
  {
    hide TemplateHash;
    var prefix := name + "-";
    assert SetName(name, a)[|prefix|..] == TemplateHash(a) && SetName(name, b)[|prefix|..] == TemplateHash(b);
  }

  /**
   * A changed template replaces the ReplicaSet, and so the pods, exactly when its hash is another;
   * otherwise the ReplicaSet stays in use, with the old template.
   */
  lemma RollsOutExactly(c: Cluster, name: string, replicas: int, before: string, template: string, puts: Puts)
    requires replicas > 0 && Reachable(c, name, replicas, template, puts)
    requires SetName(name, before) in OwnedSets(c.sets, name) && c.sets[SetName(name, before)].template == before
    ensures var former, r := SetName(name, before), MaterializeDeployment(c, name, replicas, template, puts);
      && former in r.sets && r.sets[former].template == before
      && (r.sets[former].replicas == 0 <==> TemplateHash(template) != TemplateHash(before))
      && (TemplateHash(template) == TemplateHash(before) ==> SetName(name, template) == former)
  {
    SameSetExactly(name, before, template);
    DeploymentWrites(c, name, replicas, template, puts);
    hide Reachable, MaterializeDeployment, SetName, TemplateHash, OwnedPods;
  }

  // ----- which pods are wanted -----

  lemma InNames(names: seq<string>, n: string)
    ensures n in Elements(names) <==> exists i: nat :: i < |names| && names[i] == n
  {
  }

  function Ordinal(name: string, i: nat): string {
    name + "-" + Decimal(i)
  }

  /** A StatefulSet wants the pods name-0, name-1, ..., as many as it has replicas, up to 64. */
  lemma StatefulSetPods(c: Cluster, name: string, replicas: nat, n: string)
    ensures n in WantedPods(c, "StatefulSet", name, DesiredPods(c, "StatefulSet", replicas))
      <==> exists i: nat :: i < replicas && i < 64 && n == Ordinal(name, i)
  {
    var names := WorkloadPodNames("StatefulSet", name, Capped(replicas), c.nodeCount);
    assert forall i: nat :: i < |names| ==> names[i] == Ordinal(name, i);
    assert |names| == if replicas > 64 then 64 else replicas;
    hide WorkloadPodNames, Elements, Ordinal;
    InNames(names, n);
  }

  /** They are that many: no two have one name. */
  lemma StatefulSetCount(c: Cluster, name: string, replicas: nat)
    ensures |WantedPods(c, "StatefulSet", name, DesiredPods(c, "StatefulSet", replicas))| == if replicas > 64 then 64 else replicas
  {
    var names := Numbered(name + "-", Capped(replicas), (i: nat) => Decimal(i));
    forall i, j | 0 <= i < j < |names| ensures names[i] != names[j] {
      if names[i] == names[j] {
        assert Decimal(i) == names[i][|name| + 1..] && Decimal(j) == names[j][|name| + 1..];
        DecimalInjective(i, j);
      }
    }
    DistinctSize(names);
    hide Numbered, Decimal;
  }

  lemma {:induction false} DistinctSize(names: seq<string>)
    requires forall i, j :: 0 <= i < j < |names| ==> names[i] != names[j]
    ensures |Elements(names)| == |names|
  {
    hide Elements;
    if names == [] {
      ElementsNone();
    } else {
      DistinctSize(names[1..]);
      ElementsHead(names);
      NotInRest(names);
      assert |{names[0]} + Elements(names[1..])| == 1 + |Elements(names[1..])|;
    }
  }

  lemma NotInRest(names: seq<string>)
    requires names != [] && forall i, j :: 0 <= i < j < |names| ==> names[i] != names[j]
    ensures names[0] !in Elements(names[1..])
  {
  }

  /** A DaemonSet wants one pod for each node, up to 64. */
  lemma DaemonSetPods(c: Cluster, name: string, replicas: int, n: string)
    ensures n in WantedPods(c, "DaemonSet", name, DesiredPods(c, "DaemonSet", replicas))
      <==> exists i: nat :: i < c.nodeCount && i < 64 && n == name + "-" + Suffix(name, i)
  {
    hide Suffix;
    var names := WorkloadPodNames("DaemonSet", name, Capped(c.nodeCount), c.nodeCount);
    assert forall i: nat :: i < |names| ==> names[i] == name + "-" + Suffix(name, i);
    assert |names| == if c.nodeCount > 64 then 64 else c.nodeCount;
    hide WorkloadPodNames, Elements;
    InNames(names, n);
  }

  /** A Job wants a single pod. */
  lemma JobPods(c: Cluster, name: string, replicas: int)
    ensures WantedPods(c, "Job", name, DesiredPods(c, "Job", replicas)) == {name + "-" + Suffix(name, 0)}
  {
    hide Suffix;
    OneElement(name + "-" + Suffix(name, 0));
    hide Elements;
  }

  /** A Deployment's ReplicaSet wants as many pods as the Deployment has replicas, up to 64, under its own name. */
  lemma ReplicaSetPods(name: string, replicas: nat, template: string, n: string)
    ensures n in WantedOf(name, replicas, template)
      <==> exists i: nat :: i < replicas && i < 64 && n == SetName(name, template) + "-" + Suffix(SetName(name, template), i)
  {
    hide Suffix, SetName;
    var rsName := SetName(name, template);
    var names := ReplicaPodNames(rsName, Capped(replicas));
    assert forall i: nat :: i < |names| ==> names[i] == rsName + "-" + Suffix(rsName, i);
    hide ReplicaPodNames, Elements;
    InNames(names, n);
  }

  // ----- self-healing -----

  /** Deleting a pod that a Deployment's ReplicaSet controls runs that Deployment's reconcile. */
  lemma PodDeletionReconciles(c: Cluster, podName: string, ref: OwnerRef, owner: OwnerRef, puts: Puts)
    requires podName in c.pods && ControllerOf(c.pods[podName].owners) == Controller(ref) && ref.name != ""
    requires ref.kind == "ReplicaSet" && ref.name in c.sets && LiveDeployment(c, c.sets[ref.name].owners) == Controller(owner)
    ensures owner.name in c.deployments
    ensures var d := c.deployments[owner.name];
      DeletePod(c, podName, puts) == MaterializeDeployment(c.(pods := c.pods - {podName}), owner.name, d.replicas, d.template, puts)
  {
    hide MaterializeDeployment, MaterializePods;
    SameLiveDeployment(c, c.(pods := c.pods - {podName}), c.sets[ref.name].owners);
  }

  lemma {:induction false} SameLiveDeployment(c: Cluster, d: Cluster, owners: seq<OwnerRef>)
    requires c.deployments == d.deployments
    ensures LiveDeployment(c, owners) == LiveDeployment(d, owners)
  {
    if owners != [] {
      SameLiveDeployment(c, d, owners[1..]);
    }
  }

  /** The pods that are left once `podName` is gone, and what makes their reconcile succeed. */
  ghost predicate Healable(c: Cluster, podName: string, name: string, puts: Puts)
    requires podName in c.pods && name in c.deployments
  {
    var d, left := c.deployments[name], c.(pods := c.pods - {podName});
    d.replicas >= 0 && Reachable(left, name, d.replicas, d.template, puts)
    && Foreign(left.pods, SetName(name, d.template), WantedOf(name, d.replicas, d.template)) == {}
  }

  /** Self-healing: after the deletion the Deployment's ReplicaSet owns exactly its wanted pods again. */
  lemma DeletedPodRespawns(c: Cluster, podName: string, ref: OwnerRef, owner: OwnerRef, puts: Puts)
    requires podName in c.pods && ControllerOf(c.pods[podName].owners) == Controller(ref) && ref.name != ""
    requires ref.kind == "ReplicaSet" && ref.name in c.sets && LiveDeployment(c, c.sets[ref.name].owners) == Controller(owner)
    requires Healable(c, podName, owner.name, puts)
    ensures var d := c.deployments[owner.name];
      var rsName, wanted := SetName(owner.name, d.template), WantedOf(owner.name, d.replicas, d.template);
      var r := DeletePod(c, podName, puts);
      OwnedPods(r.pods, rsName) == wanted && (podName in wanted ==> podName in r.pods)
  {
    hide MaterializeDeployment, DeletePod, OwnedBy, SetName, WantedOf;
    PodDeletionReconciles(c, podName, ref, owner, puts);
    var d := c.deployments[owner.name];
    DeploymentConverges(c.(pods := c.pods - {podName}), owner.name, d.replicas, d.template, puts);
    assert podName in OwnedPods(DeletePod(c, podName, puts).pods, SetName(owner.name, d.template)) ==> podName in DeletePod(c, podName, puts).pods;
  }

  /**
   * The same for a pod that a StatefulSet, DaemonSet or Job controls directly, whatever is refused
   * and however much the namespace holds; only unwanted pods off the page stay.
   */
  lemma DeletedWorkloadPodRespawns(c: Cluster, podName: string, ref: OwnerRef, puts: Puts)
    requires podName in c.pods && ControllerOf(c.pods[podName].owners) == Controller(ref) && ref.name != ""
    requires ServedKind(ref.apiVersion, ref.kind) && ref.kind != "Deployment" && WorkloadKey(ref.kind, ref.name) in c.workloads
    requires DesiredPods(c, ref.kind, c.workloads[WorkloadKey(ref.kind, ref.name)].replicas) >= 0
    ensures var w := c.workloads[WorkloadKey(ref.kind, ref.name)];
      var wanted, left := WantedPods(c, ref.kind, ref.name, DesiredPods(c, ref.kind, w.replicas)), c.pods - {podName};
      OwnedPods(DeletePod(c, podName, puts).pods, ref.name)
        == (wanted - Foreign(left, ref.name, wanted) - (puts.pods - left.Keys)) + (OwnedPods(left, ref.name) - wanted - Seen(left))
  {
    hide MaterializeDeployment, MaterializePods, OwnedBy, WantedPods, Foreign, Seen;
    var left := c.(pods := c.pods - {podName});
    WorkloadConverges(left, ref.apiVersion, ref.kind, ref.name, c.workloads[WorkloadKey(ref.kind, ref.name)], puts);
    SameWanted(c, left, ref.kind, ref.name, DesiredPods(c, ref.kind, c.workloads[WorkloadKey(ref.kind, ref.name)].replicas));
  }

  /** With a negative count there is nothing to do. */
  lemma {:induction false} NegativeChangesNothing(c: Cluster, name: string, replicas: int, template: string, puts: Puts)
    requires replicas < 0
    ensures MaterializeDeployment(c, name, replicas, template, puts) == c
    ensures MaterializePods(c, "apps/v1", "StatefulSet", name, Workload(replicas, template), puts) == c
  {
    hide Retire, CurrentSet, SyncPods, SyncStatus, SetName;
    assert Capped(replicas) == replicas && DesiredPods(c, "StatefulSet", replicas) == replicas;
  }

  /** A pod of a ReplicaSet without a Deployment makes the ReplicaSet itself reconcile. */
  lemma BareReplicaSetReconciles(c: Cluster, podName: string, i: nat, puts: Puts)
    requires podName in c.pods && i < |c.pods[podName].owners|
    requires var owners := c.pods[podName].owners; owners[i].controller && forall j :: 0 <= j < i ==> !owners[j].controller
    requires var ref := c.pods[podName].owners[i]; ref.kind == "ReplicaSet" && ref.name != "" && ref.name in c.sets
    requires var owners := c.sets[c.pods[podName].owners[i].name].owners;
      forall j :: 0 <= j < |owners| && owners[j].kind == "Deployment" ==> owners[j].name !in c.deployments
    ensures var ref := c.pods[podName].owners[i];
      DeletePod(c, podName, puts) == MaterializePods(c.(pods := c.pods - {podName}), ref.apiVersion, "ReplicaSet", ref.name,
        Workload(c.sets[ref.name].replicas, c.sets[ref.name].template), puts)
  {
    hide MaterializeDeployment, MaterializePods;
    var ref := c.pods[podName].owners[i];
    FirstController(c.pods[podName].owners, i);
    NoneLive(c.(pods := c.pods - {podName}), c.sets[ref.name].owners);
  }

  lemma {:induction false} NoneLive(c: Cluster, owners: seq<OwnerRef>)
    requires forall j :: 0 <= j < |owners| && owners[j].kind == "Deployment" ==> owners[j].name !in c.deployments
    ensures LiveDeployment(c, owners) == Nobody
  {
    if owners != [] {
      NoneLive(c, owners[1..]);
    }
  }

  /** A pod that nobody controls stays deleted, and so does one whose controller is gone. */
  lemma NobodyRespawns(c: Cluster, podName: string, puts: Puts)
    requires podName in c.pods
    requires var owners := c.pods[podName].owners;
      || (forall i :: 0 <= i < |owners| ==> !owners[i].controller)
      || (exists i :: 0 <= i < |owners| && owners[i].controller && Absent(c, owners[i]) && forall j :: 0 <= j < i ==> !owners[j].controller)
    ensures DeletePod(c, podName, puts) == c.(pods := c.pods - {podName})
  {
    hide MaterializeDeployment, MaterializePods;
    var owners := c.pods[podName].owners;
    if i :| 0 <= i < |owners| && owners[i].controller && Absent(c, owners[i]) && forall j :: 0 <= j < i ==> !owners[j].controller {
      FirstController(owners, i);
    } else {
      NoController(owners);
    }
  }

  /** There is no such ReplicaSet, Deployment or other workload. */
  predicate Absent(c: Cluster, ref: OwnerRef) {
    && (ref.kind == "ReplicaSet" ==> ref.name !in c.sets)
    && (ref.kind == "Deployment" ==> ref.name !in c.deployments)
    && (ref.kind != "ReplicaSet" && ref.kind != "Deployment" ==> WorkloadKey(ref.kind, ref.name) !in c.workloads)
  }

  /** The first reference marked as controller decides. */
  lemma {:induction false} FirstController(owners: seq<OwnerRef>, i: nat)
    requires i < |owners| && owners[i].controller && forall j :: 0 <= j < i ==> !owners[j].controller
    ensures ControllerOf(owners) == Controller(owners[i])
  {
    if i > 0 {
      assert forall j :: 0 <= j < i - 1 ==> owners[1..][j] == owners[j + 1];
      FirstController(owners[1..], i - 1);
    }
  }

  lemma {:induction false} NoController(owners: seq<OwnerRef>)
    requires forall i :: 0 <= i < |owners| ==> !owners[i].controller
    ensures ControllerOf(owners) == Nobody
  {
    if owners != [] {
      NoController(owners[1..]);
    }
  }

  // ----- what a reconcile made, a reconcile makes again -----

  /** The first reference to a Deployment that exists is one to `name`. */
  ghost predicate RunsFor(c: Cluster, owners: seq<OwnerRef>, name: string) {
    exists i :: 0 <= i < |owners| && owners[i].kind == "Deployment" && owners[i].name == name && name in c.deployments
      && forall j :: 0 <= j < i ==> owners[j].kind != "Deployment" || owners[j].name !in c.deployments
  }

  lemma {:induction false} RunsForLive(c: Cluster, owners: seq<OwnerRef>, name: string)
    requires RunsFor(c, owners, name)
    ensures LiveDeployment(c, owners).Controller? && LiveDeployment(c, owners).ref.name == name
  {
    var i :| 0 <= i < |owners| && owners[i].kind == "Deployment" && owners[i].name == name && name in c.deployments
      && forall j :: 0 <= j < i ==> owners[j].kind != "Deployment" || owners[j].name !in c.deployments;
    if i > 0 {
      assert owners[1..][i - 1] == owners[i];
      assert forall j :: 0 <= j < i - 1 ==> owners[1..][j] == owners[j + 1];
      RunsForLive(c, owners[1..], name);
    }
  }

  lemma OnlyController(ref: OwnerRef)
    ensures ControllerOf([ref]) == if ref.controller then Controller(ref) else Nobody
  {
    assert [ref][1..] == [] && ControllerOf([]) == Nobody;
  }

  /** The ReplicaSet that a reconcile made or kept is still that Deployment's. */
  lemma StillRuns(c: Cluster, name: string, replicas: int, template: string, puts: Puts)
    requires replicas >= 0 && Reachable(c, name, replicas, template, puts) && name in c.deployments
    requires SetName(name, template) in c.sets ==> RunsFor(c, c.sets[SetName(name, template)].owners, name)
    ensures var rsName, r := SetName(name, template), MaterializeDeployment(c, name, replicas, template, puts);
      rsName in r.sets && RunsFor(r, r.sets[rsName].owners, name)
  {
    hide MaterializeDeployment, SetName, Reachable, OwnedSets, OwnedBy, Retired, OlderSets, WantedOf;
    var rsName, r := SetName(name, template), MaterializeDeployment(c, name, replicas, template, puts);
    DeploymentWrites(c, name, replicas, template, puts);
    DeploymentFrames(c, name, replicas, template, puts);
    if rsName !in c.sets {
      assert r.sets[rsName].owners[0].kind == "Deployment" && r.sets[rsName].owners[0].name == name;
    }
  }

  lemma SetNameNotEmpty(name: string, template: string)
    ensures SetName(name, template) != ""
  {
  }

  /**
   * Whatever pod a Deployment's reconcile has made, its deletion makes the Deployment's reconcile
   * run again, and the ReplicaSet has it back: nothing need be known of the pod but that it is new.
   */
  lemma NewPodRespawns(c: Cluster, name: string, n: string, puts: Puts, again: Puts)
    requires name in c.deployments && c.deployments[name].replicas >= 0
    requires Reachable(c, name, c.deployments[name].replicas, c.deployments[name].template, puts) && Unrefused(again)
    requires var rsName := SetName(name, c.deployments[name].template); rsName in c.sets ==> RunsFor(c, c.sets[rsName].owners, name)
    requires var d := c.deployments[name];
      var r := MaterializeDeployment(c, name, d.replicas, d.template, puts);
      n in r.pods && n !in c.pods && OnePage(r.(pods := r.pods - {n}), name, d.replicas, d.template, again)
    ensures var d := c.deployments[name];
      var rsName, wanted := SetName(name, d.template), WantedOf(name, d.replicas, d.template);
      var r := MaterializeDeployment(c, name, d.replicas, d.template, puts);
      var after := DeletePod(r, n, again);
      && n in after.pods && n in OwnedPods(after.pods, rsName)
      && OwnedPods(after.pods, rsName) == wanted - Foreign(r.pods - {n}, rsName, wanted)
      && OwnedPods(r.pods, rsName) <= OwnedPods(after.pods, rsName)
  {
    hide MaterializeDeployment, DeletePod, OwnedBy, SetName, WantedOf, OnePage, SingleOwners, RunsFor, OwnedPods, Foreign, Retired, OlderSets, OwnedSets, LiveDeployment;
    var d := c.deployments[name];
    var rsName, r := SetName(name, d.template), MaterializeDeployment(c, name, d.replicas, d.template, puts);
    DeploymentFrames(c, name, d.replicas, d.template, puts);
    DeploymentWrites(c, name, d.replicas, d.template, puts);
    StillRuns(c, name, d.replicas, d.template, puts);
    RunsForLive(r, r.sets[rsName].owners, name);
    OnlyController(OwnerRef("apps/v1", "ReplicaSet", rsName, true));
    SetNameNotEmpty(name, d.template);
    PodDeletionReconciles(r, n, OwnerRef("apps/v1", "ReplicaSet", rsName, true), LiveDeployment(r, r.sets[rsName].owners).ref, again);
    var left := r.(pods := r.pods - {n});
    ReconciledSingle(c, name, d.replicas, d.template, puts);
    FewerSingle(r.pods, n);
    DeploymentConverges(left, name, d.replicas, d.template, again);
    DeploymentConverges(c, name, d.replicas, d.template, puts);
    ForeignShrinks(c, name, d.replicas, d.template, puts, n);
    OwnedIsThere(DeletePod(r, n, again).pods, rsName);
  }

  lemma OwnedIsThere(pods: map<string, Pod>, owner: string)
    ensures OwnedPods(pods, owner) <= pods.Keys
  {
  }

  lemma ReconciledSingle(c: Cluster, name: string, replicas: int, template: string, puts: Puts)
    requires replicas >= 0 && Reachable(c, name, replicas, template, puts)
    ensures SingleOwners(MaterializeDeployment(c, name, replicas, template, puts).pods)
  {
    hide MaterializeDeployment, SettledSets, SettledPods, SetName, WantedOf, SingleOwners, PodsFit, OnOnePage;
    Composed(c, name, replicas, template, puts);
    SettledFields(c, name, replicas, template, puts);
    ForeseenCovers(c.pods, WantedOf(name, replicas, template), puts);
    SettledSingleOwners(c, name, SetName(name, template), WantedOf(name, replicas, template), template, puts);
  }

  lemma FewerSingle(pods: map<string, Pod>, n: string)
    requires SingleOwners(pods)
    ensures SingleOwners(pods - {n})
  {
    hide OwnedBy;
  }

  /** Nobody else has taken a wanted name meanwhile, and the new pod's own is free. */
  lemma ForeignShrinks(c: Cluster, name: string, replicas: int, template: string, puts: Puts, n: string)
    requires replicas >= 0
    requires n in MaterializeDeployment(c, name, replicas, template, puts).pods && n !in c.pods
    ensures var rsName, wanted, r := SetName(name, template), WantedOf(name, replicas, template), MaterializeDeployment(c, name, replicas, template, puts);
      n in wanted && n !in Foreign(r.pods - {n}, rsName, wanted) && Foreign(r.pods - {n}, rsName, wanted) <= Foreign(c.pods, rsName, wanted)
  {
    hide MaterializeDeployment, SetName, WantedOf, OwnedBy, Retired, OlderSets, OwnedSets;
    DeploymentFrames(c, name, replicas, template, puts);
    var rsName, r := SetName(name, template), MaterializeDeployment(c, name, replicas, template, puts);
    forall m | m in r.pods && m !in c.pods ensures OwnedBy(r.pods[m].owners, rsName) {
      OwnsItself(OwnerRef("apps/v1", "ReplicaSet", rsName, true));
    }
  }

  lemma OwnsItself(ref: OwnerRef)
    ensures OwnedBy([ref], ref.name)
  {
    assert [ref][0].name == ref.name;
  }

  /** The same with room for both reconciles in the state before. */
  lemma NewPodRespawnsInRoom(c: Cluster, name: string, n: string, puts: Puts, again: Puts, podMax: nat, setMax: nat)
    requires name in c.deployments && c.deployments[name].replicas >= 0
    requires SingleOwners(c.pods) && Unrefused(puts) && Unrefused(again)
    requires Room(c, Capped(c.deployments[name].replicas), podMax, setMax) && Bounded(puts, podMax, setMax) && Bounded(again, podMax, setMax)
    requires var rsName := SetName(name, c.deployments[name].template); rsName in c.sets ==> RunsFor(c, c.sets[rsName].owners, name)
    requires var d := c.deployments[name]; n in MaterializeDeployment(c, name, d.replicas, d.template, puts).pods && n !in c.pods
    ensures var d := c.deployments[name];
      var rsName, r := SetName(name, d.template), MaterializeDeployment(c, name, d.replicas, d.template, puts);
      n in OwnedPods(DeletePod(r, n, again).pods, rsName) && OwnedPods(r.pods, rsName) <= OwnedPods(DeletePod(r, n, again).pods, rsName)
  {
    hide MaterializeDeployment, DeletePod, SetName, WantedOf, SingleOwners, RunsFor, OwnedPods, Foreign, OnePage, Bounded, SettledSets, SettledPods, OnOnePage, SetsFit, CurrentSet, Total;
    var d := c.deployments[name];
    var r := MaterializeDeployment(c, name, d.replicas, d.template, puts);
    RoomNow(c, name, d.replicas, d.template, puts, podMax, setMax);
    RoomAfterDeletion(c, name, d.replicas, d.template, n, puts, again, podMax, setMax);
    NewPodRespawns(c, name, n, puts, again);
  }

  lemma RoomAfterDeletion(c: Cluster, name: string, replicas: int, template: string, n: string, puts: Puts, again: Puts, podMax: nat, setMax: nat)
    requires replicas >= 0 && Room(c, Capped(replicas), podMax, setMax) && Bounded(puts, podMax, setMax) && Bounded(again, podMax, setMax)
    requires Unrefused(puts)
    ensures var r := MaterializeDeployment(c, name, replicas, template, puts);
      OnePage(r.(pods := r.pods - {n}), name, replicas, template, again)
  {
    hide MaterializeDeployment, SettledSets, SettledPods, SetName, WantedOf, CurrentSet, Total, OnOnePage, Foreseen, SetsFit, Bounded;
    var r := MaterializeDeployment(c, name, replicas, template, puts);
    RoomNow(c, name, replicas, template, puts, podMax, setMax);
    Composed(c, name, replicas, template, puts);
    SettledFields(c, name, replicas, template, puts);
    RoomForLaterPods(c, r.pods - {n}, name, replicas, template, puts, again, podMax, setMax);
    RoomForLaterSets(c, r.(pods := r.pods - {n}), name, Capped(replicas), template, puts, again, podMax, setMax);
  }

  /** And so it is with a pod that the reconcile of a StatefulSet, DaemonSet or Job has made. */
  lemma NewWorkloadPodRespawns(c: Cluster, apiVersion: string, kind: string, name: string, n: string, puts: Puts, again: Puts)
    requires (apiVersion == "apps/v1" && (kind == "StatefulSet" || kind == "DaemonSet")) || (apiVersion == "batch/v1" && kind == "Job")
    requires name != "" && WorkloadKey(kind, name) in c.workloads && DesiredPods(c, kind, c.workloads[WorkloadKey(kind, name)].replicas) >= 0
    requires n in MaterializePods(c, apiVersion, kind, name, c.workloads[WorkloadKey(kind, name)], puts).pods && n !in c.pods && n !in again.pods
    ensures var r := MaterializePods(c, apiVersion, kind, name, c.workloads[WorkloadKey(kind, name)], puts);
      n in DeletePod(r, n, again).pods && n in OwnedPods(DeletePod(r, n, again).pods, name)
  {
    hide MaterializePods, MaterializeDeployment, DeletePod, OwnedBy, WantedPods, Seen;
    var w := c.workloads[WorkloadKey(kind, name)];
    var r := MaterializePods(c, apiVersion, kind, name, w, puts);
    WorkloadConverges(c, apiVersion, kind, name, w, puts);
    OnlyController(OwnerRef(apiVersion, kind, name, true));
    DeletedWorkloadPodRespawns(r, n, OwnerRef(apiVersion, kind, name, true), again);
    SameWanted(c, r, kind, name, DesiredPods(c, kind, w.replicas));
    OwnedIsThere(DeletePod(r, n, again).pods, name);
    hide OwnedPods;
  }

  lemma SameWanted(c: Cluster, d: Cluster, kind: string, name: string, desired: nat)
    requires c.nodeCount == d.nodeCount
    ensures WantedPods(c, kind, name, desired) == WantedPods(d, kind, name, desired)
  {
  }
}
