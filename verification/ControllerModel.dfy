/** The controller emulation in one namespace: what each reconcile leaves behind. */
module ControllerModel {
  import opened Sums
  import opened Text
  import opened Order
  import opened PodNames
  import Paging

  const MAX_CONTROLLER_PODS := 64

  datatype OwnerRef = OwnerRef(apiVersion: string, kind: string, name: string, controller: bool)
  /** `size` is what the stored object encodes to; listings end by it. */
  datatype Pod = Pod(owners: seq<OwnerRef>, template: string, size: nat)
  datatype Counts = Counts(replicas: int, ready: int, available: int)
  datatype ReplicaSet = ReplicaSet(owners: seq<OwnerRef>, replicas: int, template: string, status: Counts, size: nat)
  datatype Deployment = Deployment(replicas: int, template: string, status: Counts, updated: int)
  /** A StatefulSet, DaemonSet or Job. */
  datatype Workload = Workload(replicas: int, template: string)
  datatype WorkloadKey = WorkloadKey(kind: string, name: string)

  datatype Cluster = Cluster(
    pods: map<string, Pod>,
    sets: map<string, ReplicaSet>,
    deployments: map<string, Deployment>,
    workloads: map<WorkloadKey, Workload>,
    nodeCount: nat)

  /** What the store does with the puts of one reconcile: which it turns down, and how long the others encode. */
  datatype Puts = Puts(
    pods: set<string>,
    sets: set<string>,
    status: bool,
    podSize: string -> nat,
    setSize: string -> nat)

  predicate Unrefused(puts: Puts) {
    puts.pods == {} && puts.sets == {} && !puts.status
  }

  // ----- listing: the reconciler reads one page of names -----

  function PodSizes(pods: map<string, Pod>): map<string, nat> {
    map n | n in pods :: pods[n].size
  }

  function SetSizes(sets: map<string, ReplicaSet>): map<string, nat> {
    map n | n in sets :: sets[n].size
  }

  lemma PodSizesKeys(pods: map<string, Pod>)
    ensures PodSizes(pods).Keys == pods.Keys
  {
  }

  lemma SetSizesKeys(sets: map<string, ReplicaSet>)
    ensures SetSizes(sets).Keys == sets.Keys
  {
  }

  function PlacesOf(names: set<string>): set<Place> {
    set n | n in names :: Place("", n)
  }

  ghost function RankedNames(names: set<string>): (ranked: seq<string>)
    ensures Elements(ranked) == names && |ranked| == |names|
    ensures forall i, j :: 0 <= i < j < |ranked| ==> ranked[i] != ranked[j]
  {
    var places := Ranked(PlacesOf(names));
    PlacesSize(names, PlacesOf(names));
    var ranked := seq(|places|, i requires 0 <= i < |places| => places[i].name);
    SortedNoRepeats(places);
    NamesOfPlaces(names, places, ranked);
    ranked
  }

  function SizesAt(ranked: seq<string>, sizes: map<string, nat>): (s: seq<nat>)
    requires forall i :: 0 <= i < |ranked| ==> ranked[i] in sizes
    ensures |s| == |ranked| && forall i :: 0 <= i < |s| ==> s[i] == sizes[ranked[i]]
  {
    seq(|ranked|, i requires 0 <= i < |ranked| => sizes[ranked[i]])
  }

  /** The page ends at 100 names, or before the name whose object would take it past 1 MiB. */
  ghost function Page(sizes: map<string, nat>): (page: seq<string>)
    ensures Elements(page) <= sizes.Keys
    ensures page <= RankedNames(sizes.Keys)
  {
    var ranked := RankedNames(sizes.Keys);
    assert forall i :: 0 <= i < |ranked| ==> ranked[i] in Elements(ranked);
    var end := Paging.Extend(SizesAt(ranked, sizes), 0, 0, 0, Paging.MAX_LIST_PAGE_ITEMS);
    assert forall n :: n in Elements(ranked[..end]) ==> n in Elements(ranked);
    ranked[..end]
  }

  lemma PlacesSize(names: set<string>, places: set<Place>)
    requires places == set n | n in names :: Place("", n)
    ensures |places| == |names|
    decreases names
  {
    if names == {} {
      assert places == {};
    } else {
      var n :| n in names;
      PlacesSize(names - {n}, places - {Place("", n)});
    }
  }

  lemma NamesOfPlaces(names: set<string>, places: seq<Place>, ranked: seq<string>)
    requires Elements(places) == PlacesOf(names) && |places| == |PlacesOf(names)| == |names|
    requires forall i, j :: 0 <= i < j < |places| ==> places[i] != places[j]
    requires |ranked| == |places| && forall i :: 0 <= i < |ranked| ==> ranked[i] == places[i].name
    ensures Elements(ranked) == names
    ensures forall i, j :: 0 <= i < j < |ranked| ==> ranked[i] != ranked[j]
  {
    forall i | 0 <= i < |places| ensures places[i] == Place("", ranked[i]) && ranked[i] in names {
      assert places[i] in Elements(places);
    }
    forall n | n in names ensures n in Elements(ranked) {
      assert Place("", n) in Elements(places);
      var i :| 0 <= i < |places| && places[i] == Place("", n);
      assert ranked[i] == n;
    }
  }

  /** What a listing fits into: at most 100 objects, which together are at most 1 MiB or at most one. */
  ghost predicate OnOnePage(sizes: map<string, nat>) {
    |sizes| <= Paging.MAX_LIST_PAGE_ITEMS && (|sizes| <= 1 || Total(sizes) <= Paging.MAX_LIST_PAGE_BYTES)
  }

  function Within(sizes: map<string, nat>, names: set<string>): map<string, nat> {
    map n | n in sizes && n in names :: sizes[n]
  }

  lemma WithinNone(sizes: map<string, nat>)
    ensures Total(Within(sizes, {})) == 0
  {
    assert Within(sizes, {}) == map[];
  }

  lemma WithinOneMore(sizes: map<string, nat>, names: set<string>, n: string)
    requires n in sizes && n !in names
    ensures Total(Within(sizes, names + {n})) == Total(Within(sizes, names)) + sizes[n]
  {
    assert Within(sizes, names + {n}) == Within(sizes, names)[n := sizes[n]];
    TotalUpdate(Within(sizes, names), n, sizes[n]);
  }

  lemma ElementsTake(ranked: seq<string>, n: nat)
    requires n < |ranked| && forall i, j :: 0 <= i < j < |ranked| ==> ranked[i] != ranked[j]
    ensures Elements(ranked[..n + 1]) == Elements(ranked[..n]) + {ranked[n]} && ranked[n] !in Elements(ranked[..n])
  {
    assert ranked[..n + 1] == ranked[..n] + [ranked[n]];
  }

  lemma {:induction false} SumIsTotal(ranked: seq<string>, sizes: map<string, nat>, n: nat)
    requires n <= |ranked| && forall i :: 0 <= i < |ranked| ==> ranked[i] in sizes
    requires forall i, j :: 0 <= i < j < |ranked| ==> ranked[i] != ranked[j]
    ensures Paging.Sum(SizesAt(ranked, sizes), 0, n) == Total(Within(sizes, Elements(ranked[..n])))
  {
    hide Total, Within, Elements;
    if n == 0 {
      WithinNone(sizes);
      NoElements(ranked);
    } else {
      SumIsTotal(ranked, sizes, n - 1);
      ElementsTake(ranked, n - 1);
      WithinOneMore(sizes, Elements(ranked[..n - 1]), ranked[n - 1]);
    }
  }

  lemma NoElements(ranked: seq<string>)
    ensures Elements(ranked[..0]) == {}
  {
  }

  /** The whole listing fits exactly when count and total do. */
  lemma FitsExactly(sizes: map<string, nat>, ranked: seq<string>)
    requires ranked == RankedNames(sizes.Keys) && forall i :: 0 <= i < |ranked| ==> ranked[i] in sizes
    ensures Paging.Fits(SizesAt(ranked, sizes), 0, |ranked|, Paging.MAX_LIST_PAGE_ITEMS) <==> OnOnePage(sizes)
  {
    hide Total, RankedNames, Within;
    SumIsTotal(ranked, sizes, |ranked|);
    assert ranked[..|ranked|] == ranked;
    WithinAll(sizes);
    assert |sizes| == |sizes.Keys|;
  }

  lemma WithinAll(sizes: map<string, nat>)
    ensures Within(sizes, sizes.Keys) == sizes
  {
  }

  lemma PrefixShows(ranked: seq<string>, end: nat)
    requires end <= |ranked| && forall i, j :: 0 <= i < j < |ranked| ==> ranked[i] != ranked[j]
    ensures Elements(ranked[..end]) == Elements(ranked) <==> end == |ranked|
  {
    if end < |ranked| {
      assert ranked[end] in Elements(ranked) && ranked[end] !in Elements(ranked[..end]);
    } else {
      assert ranked[..end] == ranked;
    }
  }

  /** The reconciler sees every name exactly when the listing fits one page. */
  lemma SeesAllExactly(sizes: map<string, nat>)
    ensures Elements(Page(sizes)) == sizes.Keys <==> OnOnePage(sizes)
  {
    hide RankedNames, OnOnePage, Elements;
    var ranked := RankedNames(sizes.Keys);
    InElements(ranked);
    var lengths := SizesAt(ranked, sizes);
    assert Paging.Sum(lengths, 0, 0) == 0;
    Paging.ExtendIsLargest(lengths, 0, 0, Paging.MAX_LIST_PAGE_ITEMS);
    FitsExactly(sizes, ranked);
    PrefixShows(ranked, Paging.Extend(lengths, 0, 0, 0, Paging.MAX_LIST_PAGE_ITEMS));
  }

  lemma InElements(ranked: seq<string>)
    ensures forall i :: 0 <= i < |ranked| ==> ranked[i] in Elements(ranked)
  {
  }

  predicate OwnedBy(owners: seq<OwnerRef>, name: string) {
    exists i :: 0 <= i < |owners| && owners[i].name == name
  }

  function OwnedPods(pods: map<string, Pod>, owner: string): set<string> {
    set n | n in pods && OwnedBy(pods[n].owners, owner)
  }

  function OwnedSets(sets: map<string, ReplicaSet>, owner: string): set<string> {
    set n | n in sets && OwnedBy(sets[n].owners, owner)
  }

  /** ownedPodNames: ownership is by name alone, and only on the first page. */
  ghost function SeenPods(pods: map<string, Pod>, owner: string): set<string> {
    OwnedPods(pods, owner) * Elements(Page(PodSizes(pods)))
  }

  /** How many owner references carry the name. */
  function Times(owners: seq<OwnerRef>, name: string): nat {
    if owners == [] then 0 else (if owners[0].name == name then 1 else 0) + Times(owners[1..], name)
  }

  lemma {:induction false} TimesOwned(owners: seq<OwnerRef>, name: string)
    ensures Times(owners, name) > 0 <==> OwnedBy(owners, name)
  {
    if owners != [] {
      TimesOwned(owners[1..], name);
      if OwnedBy(owners, name) && owners[0].name != name {
        var i :| 0 <= i < |owners| && owners[i].name == name;
        assert owners[1..][i - 1].name == name;
      }
    }
  }

  function RefCount(sets: map<string, ReplicaSet>, n: string, owner: string): nat {
    if n in sets then Times(sets[n].owners, owner) else 0
  }

  function Repeat(name: string, n: nat): (r: seq<string>)
    ensures |r| == n && forall i :: 0 <= i < n ==> r[i] == name
  {
    seq(n, i => name)
  }

  /** Each name as often as its ReplicaSet names the owner. */
  function Repeated(names: seq<string>, sets: map<string, ReplicaSet>, owner: string): seq<string> {
    if names == [] then [] else Repeat(names[0], RefCount(sets, names[0], owner)) + Repeated(names[1..], sets, owner)
  }

  lemma {:induction false} RepeatedNames(names: seq<string>, sets: map<string, ReplicaSet>, owner: string)
    ensures forall n :: n in Repeated(names, sets, owner) <==> n in names && n in OwnedSets(sets, owner)
  {
    if names != [] {
      var count := RefCount(sets, names[0], owner);
      RepeatedNames(names[1..], sets, owner);
      if names[0] in sets {
        TimesOwned(sets[names[0]].owners, owner);
      }
      assert count > 0 <==> names[0] in OwnedSets(sets, owner);
      assert count > 0 ==> Repeat(names[0], count)[0] == names[0];
      assert forall n :: n in Repeat(names[0], count) <==> n == names[0] && count > 0;
      hide OwnedSets, RefCount, OwnedBy;
    }
  }

  /**
   * deploymentReplicaSets: the owned names of the first page, in listing order, each as often as
   * its ReplicaSet names the owner.
   */
  ghost function SeenSets(sets: map<string, ReplicaSet>, owner: string): (names: seq<string>)
    ensures forall n :: n in names ==> n in OwnedSets(sets, owner)
  {
    RepeatedNames(Page(SetSizes(sets)), sets, owner);
    Repeated(Page(SetSizes(sets)), sets, owner)
  }

  lemma SeenSetNames(sets: map<string, ReplicaSet>, owner: string)
    ensures forall n :: n in SeenSets(sets, owner) <==> n in Page(SetSizes(sets)) && n in OwnedSets(sets, owner)
  {
    RepeatedNames(Page(SetSizes(sets)), sets, owner);
    hide Page, Repeated, OwnedSets;
  }

  function Among(names: seq<string>, chosen: set<string>): (r: seq<string>)
    ensures forall n :: n in r <==> n in names && n in chosen
  {
    if names == [] then []
    else (if names[0] in chosen then [names[0]] else []) + Among(names[1..], chosen)
  }

  // ----- pods of one owner -----

  /** Reap the owned pods that are not wanted, then add the wanted names that are free. */
  ghost function SyncPods(pods: map<string, Pod>, owner: string, wanted: set<string>, pod: Pod, puts: Puts): map<string, Pod> {
    var kept := pods - (SeenPods(pods, owner) - wanted);
    kept + (map n | n in wanted && n !in kept && n !in puts.pods :: pod.(size := puts.podSize(n)))
  }

  function Capped(replicas: int): int {
    if replicas > MAX_CONTROLLER_PODS then MAX_CONTROLLER_PODS else replicas
  }

  function DesiredPods(c: Cluster, kind: string, replicas: int): int {
    Capped(if kind == "DaemonSet" then c.nodeCount else if kind == "Job" then 1 else replicas)
  }

  function WantedPods(c: Cluster, kind: string, name: string, desired: nat): set<string> {
    Elements(WorkloadPodNames(kind, name, desired, c.nodeCount))
  }

  /** materializePods for a workload that owns its pods directly. */
  ghost function MaterializePods(c: Cluster, apiVersion: string, kind: string, name: string, w: Workload, puts: Puts): Cluster {
    var desired := DesiredPods(c, kind, w.replicas);
    if desired < 0 then c
    else
      var pod := Pod([OwnerRef(apiVersion, kind, name, true)], w.template, 0);
      c.(pods := SyncPods(c.pods, name, WantedPods(c, kind, name, desired), pod, puts))
  }

  // ----- a Deployment's chain -----

  function SetName(deployment: string, template: string): string {
    deployment + "-" + TemplateHash(template)
  }

  function NewSet(deployment: string, desired: int, template: string, size: nat): ReplicaSet {
    ReplicaSet([OwnerRef("apps/v1", "Deployment", deployment, true)], desired, template, Counts(desired, desired, desired), size)
  }

  function SetPod(rsName: string, template: string): Pod {
    Pod([OwnerRef("apps/v1", "ReplicaSet", rsName, true)], template, 0)
  }

  /** A ReplicaSet that has the count already is not put again. */
  function Scaled(rs: ReplicaSet, replicas: int, size: nat): ReplicaSet {
    if rs.replicas == replicas then rs else rs.(replicas := replicas, status := Counts(replicas, replicas, replicas), size := size)
  }

  /** The ReplicaSets after the current one was created or scaled. */
  function CurrentSet(c: Cluster, name: string, rsName: string, desired: int, template: string, puts: Puts): map<string, ReplicaSet> {
    if rsName in puts.sets then c.sets
    else if rsName in c.sets then c.sets[rsName := Scaled(c.sets[rsName], desired, puts.setSize(rsName))]
    else c.sets[rsName := NewSet(name, desired, template, puts.setSize(rsName))]
  }

  /** Old ReplicaSets, one after the other: scaled to zero, their pods reaped, the objects kept. */
  ghost function Retire(c: Cluster, older: seq<string>, rsName: string, puts: Puts): Cluster
    decreases |older|
  {
    if older == [] then c
    else if older[0] == rsName then Retire(c, older[1..], rsName, puts)
    else Retire(RetireOne(c, older[0], puts), older[1..], rsName, puts)
  }

  ghost function RetireOne(c: Cluster, oldName: string, puts: Puts): Cluster {
    c.(sets := if oldName in c.sets && oldName !in puts.sets then c.sets[oldName := Scaled(c.sets[oldName], 0, puts.setSize(oldName))] else c.sets,
       pods := c.pods - SeenPods(c.pods, oldName))
  }

  function SyncStatus(c: Cluster, name: string, desired: int, refused: bool): Cluster {
    if name in c.deployments && !refused
    then c.(deployments := c.deployments[name := c.deployments[name].(status := Counts(desired, desired, desired), updated := desired)])
    else c
  }

  ghost function MaterializeDeployment(c: Cluster, name: string, replicas: int, template: string, puts: Puts): Cluster {
    var desired := Capped(replicas);
    var rsName := SetName(name, template);
    if desired < 0 || (rsName !in c.sets && rsName in puts.sets) then c
    else
      var current := c.(
        sets := CurrentSet(c, name, rsName, desired, template, puts),
        pods := SyncPods(c.pods, rsName, Elements(ReplicaPodNames(rsName, desired)), SetPod(rsName, template), puts));
      SyncStatus(Retire(current, SeenSets(current.sets, name), rsName, puts), name, desired, puts.status)
  }

  // ----- cascading delete and respawn -----

  ghost function ReapSets(c: Cluster, names: seq<string>): Cluster
    decreases |names|
  {
    if names == [] then c
    else ReapSets(c.(pods := c.pods - SeenPods(c.pods, names[0]), sets := c.sets - {names[0]}), names[1..])
  }

  ghost function ReapOwnedPods(c: Cluster, name: string): Cluster {
    var reaped := c.(pods := c.pods - SeenPods(c.pods, name));
    ReapSets(reaped, SeenSets(reaped.sets, name))
  }

  /** DELETE of a Deployment. */
  ghost function DeleteDeployment(c: Cluster, name: string): Cluster {
    ReapOwnedPods(c.(deployments := c.deployments - {name}), name)
  }

  /** The cluster without one workload; a ReplicaSet is one too. */
  function Without(c: Cluster, kind: string, name: string): Cluster {
    if kind == "Deployment" then c.(deployments := c.deployments - {name})
    else if kind == "ReplicaSet" then c.(sets := c.sets - {name})
    else c.(workloads := c.workloads - {WorkloadKey(kind, name)})
  }

  predicate Exists(c: Cluster, kind: string, name: string) {
    if kind == "Deployment" then name in c.deployments
    else if kind == "ReplicaSet" then name in c.sets
    else WorkloadKey(kind, name) in c.workloads
  }

  /** DELETE of a workload of any kind: the cascade only looks at the name. */
  ghost function DeleteWorkload(c: Cluster, kind: string, name: string): Cluster {
    ReapOwnedPods(Without(c, kind, name), name)
  }

  datatype Controller = Nobody | Controller(ref: OwnerRef)

  /** The first owner reference marked as controller. */
  function ControllerOf(owners: seq<OwnerRef>): Controller {
    if owners == [] then Nobody else if owners[0].controller then Controller(owners[0]) else ControllerOf(owners[1..])
  }

  /** The first Deployment among a ReplicaSet's owners that still exists. */
  function LiveDeployment(c: Cluster, owners: seq<OwnerRef>): (r: Controller)
    ensures r.Controller? ==> r.ref in owners && r.ref.name in c.deployments
  {
    if owners == [] then Nobody
    else if owners[0].kind == "Deployment" && owners[0].name in c.deployments then Controller(owners[0])
    else LiveDeployment(c, owners[1..])
  }

  predicate ServedKind(apiVersion: string, kind: string) {
    || (apiVersion == "apps/v1" && (kind == "Deployment" || kind == "StatefulSet" || kind == "DaemonSet"))
    || (apiVersion == "batch/v1" && kind == "Job")
  }

  /** What the API does after it deleted `pod`. */
  ghost function Respawn(c: Cluster, pod: Pod, puts: Puts): Cluster {
    match ControllerOf(pod.owners)
    case Nobody => c
    case Controller(ref) =>
      if ref.name == "" then c
      else if ref.kind == "ReplicaSet" then
        if ref.name !in c.sets then c
        else
          var rs := c.sets[ref.name];
          match LiveDeployment(c, rs.owners)
          case Controller(owner) =>
            var d := c.deployments[owner.name];
            MaterializeDeployment(c, owner.name, d.replicas, d.template, puts)
          case Nobody => MaterializePods(c, ref.apiVersion, "ReplicaSet", ref.name, Workload(rs.replicas, rs.template), puts)
      else if !ServedKind(ref.apiVersion, ref.kind) then c
      else if ref.kind == "Deployment" then
        if ref.name !in c.deployments then c
        else MaterializeDeployment(c, ref.name, c.deployments[ref.name].replicas, c.deployments[ref.name].template, puts)
      else if WorkloadKey(ref.kind, ref.name) in c.workloads then
        MaterializePods(c, ref.apiVersion, ref.kind, ref.name, c.workloads[WorkloadKey(ref.kind, ref.name)], puts)
      else c
  }

  /** DELETE of a pod: remove it, then let its controller notice. */
  ghost function DeletePod(c: Cluster, podName: string, puts: Puts): Cluster {
    if podName !in c.pods then c
    else Respawn(c.(pods := c.pods - {podName}), c.pods[podName], puts)
  }
}
