/** What the deletion of a workload takes with it, and when that is all it owns. */
module Cascade {
  import opened Sums
  import opened Order
  import opened ControllerModel
  import opened Convergence
  import Paging

  // ----- what the cascade removes -----

  ghost predicate OwnedByOneOf(owners: seq<OwnerRef>, names: set<string>) {
    exists o :: o in names && OwnedBy(owners, o)
  }

  ghost function Spared(pods: map<string, Pod>, names: set<string>): map<string, Pod> {
    map n | n in pods && !OwnedByOneOf(pods[n].owners, names) :: pods[n]
  }

  lemma SpareOneMore(pods: map<string, Pod>, name: string, names: set<string>)
    ensures Spared(pods - OwnedPods(pods, name), names) == Spared(pods, {name} + names)
  {
    hide OwnedBy;
    forall owners ensures OwnedByOneOf(owners, {name} + names) <==> OwnedBy(owners, name) || OwnedByOneOf(owners, names) {
      assert OwnedBy(owners, name) ==> name in {name} + names;
    }
    hide OwnedByOneOf;
  }

  lemma SpareAll(pods: map<string, Pod>)
    ensures Spared(pods, {}) == pods
  {
    hide OwnedBy;
  }

  ghost function ReapOne(c: Cluster, name: string): Cluster {
    c.(pods := c.pods - SeenPods(c.pods, name), sets := c.sets - {name})
  }

  lemma ReapedPods(c: Cluster, name: string)
    requires PodsFit(c.pods)
    ensures ReapOne(c, name).pods == c.pods - OwnedPods(c.pods, name) && PodsFit(ReapOne(c, name).pods)
  {
    hide OwnedPods, PodsFit;
    SeenAll(c.pods, name);
    FewerPods(c.pods - SeenPods(c.pods, name), c.pods);
  }

  lemma ReapHead(c: Cluster, names: seq<string>)
    requires names != []
    ensures ReapSets(c, names) == ReapSets(ReapOne(c, names[0]), names[1..])
  {
  }

  lemma {:induction false} ReapPods(c: Cluster, names: seq<string>)
    requires PodsFit(c.pods)
    ensures ReapSets(c, names).pods == Spared(c.pods, Elements(names))
    decreases |names|
  {
    hide OwnedPods, Spared, ReapOne, Elements, PodsFit;
    if names == [] {
      ElementsNone();
      SpareAll(c.pods);
    } else {
      var next := ReapOne(c, names[0]);
      ReapHead(c, names);
      ReapedPods(c, names[0]);
      ReapPods(next, names[1..]);
      ElementsHead(names);
      SpareOneMore(c.pods, names[0], Elements(names[1..]));
    }
  }

  lemma {:induction false} ReapRest(c: Cluster, names: seq<string>)
    ensures var r := ReapSets(c, names);
      r == c.(sets := c.sets - Elements(names), pods := r.pods)
    decreases |names|
  {
    hide SeenPods, OwnedPods;
    if names == [] {
      assert c.sets - Elements(names) == c.sets;
    } else {
      ReapRest(c.(pods := c.pods - SeenPods(c.pods, names[0]), sets := c.sets - {names[0]}), names[1..]);
      MinusHead(c.sets, names);
    }
  }

  lemma MinusHead(sets: map<string, ReplicaSet>, names: seq<string>)
    requires names != []
    ensures sets - {names[0]} - Elements(names[1..]) == sets - Elements(names)
  {
    ElementsHead(names);
  }

  lemma Reaped(c: Cluster, names: seq<string>)
    requires PodsFit(c.pods)
    ensures ReapSets(c, names) == c.(sets := c.sets - Elements(names), pods := Spared(c.pods, Elements(names)))
  {
    hide ReapSets, Spared, Elements, PodsFit;
    ReapPods(c, names);
    ReapRest(c, names);
  }

  lemma SeenSetElements(sets: map<string, ReplicaSet>, owner: string)
    requires SetsFit(sets)
    ensures Elements(SeenSets(sets, owner)) == OwnedSets(sets, owner)
  {
    hide SetsFit, SeenSets, OwnedBy;
    SeenAllSets(sets, owner);
  }

  lemma CascadeCloses(c: Cluster, name: string)
    requires PodsFit(c.pods) && SetsFit(c.sets)
    ensures var doomed := OwnedSets(c.sets, name);
      ReapOwnedPods(c, name) == c.(sets := c.sets - doomed, pods := Spared(c.pods, {name} + doomed))
  {
    hide OwnedBy, SeenPods, SeenSets, Spared, OwnedPods, OwnedSets, ReapSets, PodsFit, SetsFit, Elements;
    var reaped := c.(pods := c.pods - SeenPods(c.pods, name));
    SeenAll(c.pods, name);
    FewerPods(reaped.pods, c.pods);
    Reaped(reaped, SeenSets(c.sets, name));
    SeenSetElements(c.sets, name);
    SpareOneMore(c.pods, name, OwnedSets(c.sets, name));
  }

  /** Deleting a Deployment removes exactly its ReplicaSets, its own pods and their pods. */
  lemma DeploymentCascade(c: Cluster, name: string)
    requires PodsFit(c.pods) && SetsFit(c.sets)
    ensures var doomed := OwnedSets(c.sets, name);
      DeleteDeployment(c, name) == c.(
        sets := c.sets - doomed,
        pods := Spared(c.pods, {name} + doomed),
        deployments := c.deployments - {name})
  {
    hide ReapOwnedPods, Spared, OwnedSets, PodsFit, SetsFit;
    CascadeCloses(c.(deployments := c.deployments - {name}), name);
  }

  /** So nothing owned by the Deployment, or by a ReplicaSet of it, is left. */
  lemma NothingOwnedRemains(c: Cluster, name: string)
    requires PodsFit(c.pods) && SetsFit(c.sets)
    ensures var r := DeleteDeployment(c, name);
      && OwnedSets(r.sets, name) == {} && OwnedPods(r.pods, name) == {}
      && forall o :: o in OwnedSets(c.sets, name) ==> OwnedPods(r.pods, o) == {}
  {
    hide DeleteDeployment, OwnedBy, PodsFit, SetsFit;
    DeploymentCascade(c, name);
    var doomed := OwnedSets(c.sets, name);
    forall o | o in {name} + doomed ensures OwnedPods(Spared(c.pods, {name} + doomed), o) == {} {
    }
  }

  lemma {:induction false} ReapSpares(c: Cluster, names: seq<string>)
    ensures var r := ReapSets(c, names);
      && (forall n :: n in r.pods ==> n in c.pods && r.pods[n] == c.pods[n])
      && (forall n :: n in c.pods && !OwnedByOneOf(c.pods[n].owners, Elements(names)) ==> n in r.pods)
    decreases |names|
  {
    hide OwnedBy, SeenPods, Elements;
    if names != [] {
      SeenAmongOwned(c.pods, names[0]);
      ReapSpares(ReapOne(c, names[0]), names[1..]);
      ElementsHead(names);
      assert forall owners :: !OwnedByOneOf(owners, Elements(names)) ==> !OwnedBy(owners, names[0]) && !OwnedByOneOf(owners, Elements(names[1..]));
    }
  }

  /** In every state, whatever the listings show: the cascade removes only what the Deployment owns. */
  lemma CascadeSparesOthers(c: Cluster, name: string)
    ensures var r := DeleteDeployment(c, name);
      && (forall n :: n in r.pods ==> n in c.pods && r.pods[n] == c.pods[n])
      && (forall n :: n in c.pods && n !in r.pods ==> OwnedByOneOf(c.pods[n].owners, {name} + OwnedSets(c.sets, name)))
      && (forall o :: o in c.sets && o !in OwnedSets(c.sets, name) ==> o in r.sets)
      && r == c.(pods := r.pods, sets := c.sets - Elements(SeenSets(c.sets, name)), deployments := c.deployments - {name})
  {
    hide OwnedBy, SeenPods, SeenSets, OwnedSets, Elements, ReapSets, OwnedByOneOf;
    var reaped := c.(deployments := c.deployments - {name}, pods := c.pods - SeenPods(c.pods, name));
    var names := SeenSets(c.sets, name);
    SeenAmongOwned(c.pods, name);
    ReapSpares(reaped, names);
    ReapRest(reaped, names);
    SeenSetsOwned(c.sets, name);
    SomeOwner(c, name);
  }

  lemma SeenSetsOwned(sets: map<string, ReplicaSet>, owner: string)
    ensures Elements(SeenSets(sets, owner)) <= OwnedSets(sets, owner)
  {
    hide SeenSets, OwnedSets;
  }

  lemma SomeOwner(c: Cluster, name: string)
    ensures forall n :: n in OwnedPods(c.pods, name) ==> OwnedByOneOf(c.pods[n].owners, {name} + OwnedSets(c.sets, name))
    ensures forall owners, names :: names <= OwnedSets(c.sets, name) && OwnedByOneOf(owners, names) ==> OwnedByOneOf(owners, {name} + OwnedSets(c.sets, name))
  {
    hide OwnedBy, OwnedSets;
    assert name in {name} + OwnedSets(c.sets, name);
  }

  /** Of the Deployments and other workloads only the deleted one goes. */
  lemma OnlyTheDeletedGoes(c: Cluster, kind: string, name: string)
    ensures var r := DeleteWorkload(c, kind, name);
      && !Exists(r, kind, name)
      && (forall d :: d in c.deployments && !(kind == "Deployment" && d == name) ==> d in r.deployments && r.deployments[d] == c.deployments[d])
      && (forall w :: w in c.workloads && w != WorkloadKey(kind, name) ==> w in r.workloads && r.workloads[w] == c.workloads[w])
  {
    hide SeenPods, SeenSets, ReapSets;
    var left := Without(c, kind, name);
    var reaped := left.(pods := left.pods - SeenPods(left.pods, name));
    ReapRest(reaped, SeenSets(left.sets, name));
  }

  // ----- owners of the same name -----

  /** Owned by the workload of this kind, and not just by one of this name. */
  predicate OwnedAs(owners: seq<OwnerRef>, kind: string, name: string) {
    exists i :: 0 <= i < |owners| && owners[i].kind == kind && owners[i].name == name
  }

  function ProperSets(sets: map<string, ReplicaSet>, kind: string, name: string): set<string> {
    set n | n in sets && OwnedAs(sets[n].owners, kind, name)
  }

  ghost predicate ProperlyOwned(owners: seq<OwnerRef>, sets: set<string>, kind: string, name: string) {
    OwnedAs(owners, kind, name) || exists o :: o in sets && OwnedAs(owners, "ReplicaSet", o)
  }

  /** What a deletion would leave if it asked for the kind of the owner too. */
  ghost function KindAware(c: Cluster, kind: string, name: string): Cluster {
    var doomed := ProperSets(c.sets, kind, name);
    c.(sets := c.sets - doomed, pods := map n | n in c.pods && !ProperlyOwned(c.pods[n].owners, doomed, kind, name) :: c.pods[n])
  }

  /** Whatever names a doomed owner names it under its kind. */
  ghost predicate NoNamesakes(c: Cluster, kind: string, name: string) {
    && (forall o :: o in c.sets && OwnedBy(c.sets[o].owners, name) ==> OwnedAs(c.sets[o].owners, kind, name))
    && (forall n :: n in c.pods && OwnedByOneOf(c.pods[n].owners, {name} + OwnedSets(c.sets, name)) ==>
          ProperlyOwned(c.pods[n].owners, ProperSets(c.sets, kind, name), kind, name))
  }

  lemma ProperIsOwned(owners: seq<OwnerRef>, kind: string, name: string)
    ensures OwnedAs(owners, kind, name) ==> OwnedBy(owners, name)
  {
  }

  lemma ProperSetsOwned(sets: map<string, ReplicaSet>, kind: string, name: string)
    ensures ProperSets(sets, kind, name) <= OwnedSets(sets, name) <= sets.Keys
  {
    forall n | n in sets ensures OwnedAs(sets[n].owners, kind, name) ==> OwnedBy(sets[n].owners, name) {
      ProperIsOwned(sets[n].owners, kind, name);
    }
    hide OwnedAs, OwnedBy;
  }

  lemma ProperlyNamed(owners: seq<OwnerRef>, sets: set<string>, kind: string, name: string)
    ensures ProperlyOwned(owners, sets, kind, name) ==> OwnedByOneOf(owners, {name} + sets)
  {
    hide OwnedAs, OwnedBy;
    if ProperlyOwned(owners, sets, kind, name) {
      if OwnedAs(owners, kind, name) {
        ProperIsOwned(owners, kind, name);
        assert name in {name} + sets;
      } else {
        var o :| o in sets && OwnedAs(owners, "ReplicaSet", o);
        ProperIsOwned(owners, "ReplicaSet", o);
        assert o in {name} + sets;
      }
    }
  }

  lemma SameDoomed(sets: map<string, ReplicaSet>, kind: string, name: string)
    ensures sets - OwnedSets(sets, name) == sets - ProperSets(sets, kind, name)
      <==> forall o :: o in sets && OwnedBy(sets[o].owners, name) ==> OwnedAs(sets[o].owners, kind, name)
  {
    ProperSetsOwned(sets, kind, name);
    hide OwnedAs, OwnedBy;
    var owned, proper := OwnedSets(sets, name), ProperSets(sets, kind, name);
    if sets - owned == sets - proper {
      SameRest(sets, owned, proper);
      forall o | o in sets && OwnedBy(sets[o].owners, name) ensures OwnedAs(sets[o].owners, kind, name) {
        assert o in owned;
      }
    }
    if forall o :: o in sets && OwnedBy(sets[o].owners, name) ==> OwnedAs(sets[o].owners, kind, name) {
      assert owned == proper;
    }
  }

  /**
   * Owners are matched by name alone. With one-page listings, the deletion of a workload takes
   * exactly what it owns, directly or through its ReplicaSets, precisely when nothing that is
   * taken owes its place to a namesake of another kind.
   */
  lemma NamesakesExactly(c: Cluster, kind: string, name: string)
    requires PodsFit(c.pods) && SetsFit(c.sets)
    ensures ReapOwnedPods(c, name) == KindAware(c, kind, name) <==> NoNamesakes(c, kind, name)
  {
    hide OwnedAs, OwnedBy, ReapOwnedPods, PodsFit, SetsFit, OwnedByOneOf, ProperlyOwned, OwnedSets, ProperSets;
    CascadeCloses(c, name);
    SameDoomed(c.sets, kind, name);
    ProperSetsOwned(c.sets, kind, name);
    var owned, proper := OwnedSets(c.sets, name), ProperSets(c.sets, kind, name);
    var taken, aware := Spared(c.pods, {name} + owned), KindAware(c, kind, name).pods;
    if c.sets - owned == c.sets - proper {
      SameRest(c.sets, owned, proper);
      forall n | n in c.pods ensures ProperlyOwned(c.pods[n].owners, proper, kind, name) ==> OwnedByOneOf(c.pods[n].owners, {name} + owned) {
        ProperlyNamed(c.pods[n].owners, proper, kind, name);
      }
      if taken == aware {
        forall n | n in c.pods && OwnedByOneOf(c.pods[n].owners, {name} + owned) ensures ProperlyOwned(c.pods[n].owners, proper, kind, name) {
          assert n !in taken;
        }
      }
    }
  }

  lemma SameRest(sets: map<string, ReplicaSet>, a: set<string>, b: set<string>)
    requires a <= sets.Keys && b <= sets.Keys && sets - a == sets - b
    ensures a == b
  {
    forall o | o in sets ensures o in a <==> o in b {
      assert o in sets - a <==> o in sets - b;
    }
  }

  /** A StatefulSet and a Deployment of one name, with a pod and a ReplicaSet of theirs. */
  const NAMESAKES := Cluster(
    map["web-0" := Pod([OwnerRef("apps/v1", "StatefulSet", "web", true)], "{}", 1000)],
    map["web-1" := ReplicaSet([OwnerRef("apps/v1", "Deployment", "web", true)], 0, "{}", Counts(0, 0, 0), 1000)],
    map["web" := Deployment(0, "{}", Counts(0, 0, 0), 0)],
    map[WorkloadKey("StatefulSet", "web") := Workload(1, "{}")],
    3)

  lemma NamesakeOwners()
    ensures var pod, rs := NAMESAKES.pods["web-0"], NAMESAKES.sets["web-1"];
      && OwnedBy(pod.owners, "web") && !OwnedAs(pod.owners, "Deployment", "web") && !OwnedBy(pod.owners, "web-1")
      && OwnedBy(rs.owners, "web") && !OwnedAs(rs.owners, "StatefulSet", "web")
  {
    assert NAMESAKES.pods["web-0"].owners[0].name == "web" && NAMESAKES.sets["web-1"].owners[0].name == "web";
  }

  lemma NamesakesFit()
    ensures PodsFit(NAMESAKES.pods) && SetsFit(NAMESAKES.sets)
  {
    PodSizesKeys(NAMESAKES.pods);
    SetSizesKeys(NAMESAKES.sets);
    assert |PodSizes(NAMESAKES.pods)| == |PodSizes(NAMESAKES.pods).Keys| == |{"web-0"}|;
    assert |SetSizes(NAMESAKES.sets)| == |SetSizes(NAMESAKES.sets).Keys| == |{"web-1"}|;
  }

  /** Deleting either takes what belongs to the other. */
  lemma NamesakesAreTaken()
    ensures "web-0" !in DeleteWorkload(NAMESAKES, "Deployment", "web").pods
    ensures "web-1" !in DeleteWorkload(NAMESAKES, "StatefulSet", "web").sets
  {
    hide ReapOwnedPods, PodsFit, SetsFit, OwnedBy, OwnedAs;
    NamesakeOwners();
    NamesakesFit();
    var c, d := Without(NAMESAKES, "Deployment", "web"), Without(NAMESAKES, "StatefulSet", "web");
    CascadeCloses(c, "web");
    CascadeCloses(d, "web");
    assert "web" in {"web"} + OwnedSets(c.sets, "web");
    assert OwnedByOneOf(NAMESAKES.pods["web-0"].owners, {"web"} + OwnedSets(c.sets, "web"));
  }

  // ----- when the cascade is complete -----

  /** The pods left once each of `turns` in its order had the pods reaped that a fresh listing shows it to own. */
  ghost function PodsAfter(pods: map<string, Pod>, turns: seq<string>): map<string, Pod> {
    if turns == [] then pods
    else
      var before := PodsAfter(pods, turns[..|turns| - 1]);
      before - SeenPods(before, turns[|turns| - 1])
  }

  lemma {:induction false} PodsAfterConcat(pods: map<string, Pod>, first: seq<string>, second: seq<string>)
    ensures PodsAfter(pods, first + second) == PodsAfter(PodsAfter(pods, first), second)
  {
    hide SeenPods;
    var all := first + second;
    if second == [] {
      assert all == first;
    } else {
      PodsAfterConcat(pods, first, second[..|second| - 1]);
      assert all[..|all| - 1] == first + second[..|second| - 1];
    }
  }

  lemma PodsAfterOne(pods: map<string, Pod>, owner: string)
    ensures PodsAfter(pods, [owner]) == pods - SeenPods(pods, owner)
  {
    hide SeenPods;
    assert [owner][..0] == [];
  }

  lemma {:induction false} ReapTurns(c: Cluster, names: seq<string>)
    ensures ReapSets(c, names).pods == PodsAfter(c.pods, names)
    decreases |names|
  {
    hide SeenPods;
    if names != [] {
      ReapTurns(ReapOne(c, names[0]), names[1..]);
      PodsAfterOne(c.pods, names[0]);
      PodsAfterConcat(c.pods, [names[0]], names[1..]);
      assert [names[0]] + names[1..] == names;
    }
  }

  /** One of at most `listings` listings, each followed by a reap, shows all the owner's pods that are left. */
  ghost predicate ShownWithin(pods: map<string, Pod>, owner: string, listings: nat) {
    listings > 0 &&
    (OwnedPods(pods, owner) <= Seen(pods) || ShownWithin(pods - SeenPods(pods, owner), owner, listings - 1))
  }

  lemma ReapedSome(pods: map<string, Pod>, owner: string)
    ensures var left := pods - SeenPods(pods, owner);
      && OwnedPods(left, owner) == OwnedPods(pods, owner) - Seen(pods)
      && left - OwnedPods(left, owner) == pods - OwnedPods(pods, owner)
  {
    hide OwnedPods, SeenPods, Seen;
    OwnedLeft(pods, owner, SeenPods(pods, owner));
    SeenAmongOwned(pods, owner);
    SeenOwned(pods, owner);
    OwnedKnown(pods, owner);
    SameOthers(pods, SeenPods(pods, owner), OwnedPods(pods, owner), OwnedPods(pods - SeenPods(pods, owner), owner));
  }

  lemma OwnedLeft(pods: map<string, Pod>, owner: string, gone: set<string>)
    ensures OwnedPods(pods - gone, owner) == OwnedPods(pods, owner) - gone
  {
    hide OwnedBy;
  }

  lemma SeenOwned(pods: map<string, Pod>, owner: string)
    ensures SeenPods(pods, owner) == OwnedPods(pods, owner) * Seen(pods)
  {
  }

  lemma OwnedKnown(pods: map<string, Pod>, owner: string)
    ensures OwnedPods(pods, owner) <= pods.Keys
  {
  }

  lemma SameOthers(pods: map<string, Pod>, seen: set<string>, owned: set<string>, unseen: set<string>)
    requires seen <= owned <= pods.Keys && unseen == owned - seen
    ensures pods - seen - unseen == pods - owned
  {
  }

  lemma RepeatMore(name: string, n: nat)
    requires n > 0
    ensures Repeat(name, n)[..n - 1] == Repeat(name, n - 1)
  {
  }

  lemma {:induction false} NothingToReap(pods: map<string, Pod>, owner: string, n: nat)
    requires OwnedPods(pods, owner) == {}
    ensures PodsAfter(pods, Repeat(owner, n)) == pods
  {
    hide OwnedPods, SeenPods, Repeat;
    if n > 0 {
      NothingToReap(pods, owner, n - 1);
      RepeatMore(owner, n);
      SeenAmongOwned(pods, owner);
      assert pods - {} == pods;
    }
  }

  /** The turns of one owner: they take nothing else, and all it owns exactly when the listings show it. */
  lemma {:induction false} TurnsOfOne(pods: map<string, Pod>, owner: string, n: nat)
    requires n > 0
    ensures var left := PodsAfter(pods, Repeat(owner, n));
      && left - OwnedPods(left, owner) == pods - OwnedPods(pods, owner)
      && (OwnedPods(left, owner) == {} <==> ShownWithin(pods, owner, n))
    decreases n
  {
    hide OwnedPods, SeenPods, Seen, PodsAfter;
    var next := pods - SeenPods(pods, owner);
    ReapedSome(pods, owner);
    PodsAfterOne(pods, owner);
    PodsAfterConcat(pods, [owner], Repeat(owner, n - 1));
    assert [owner] + Repeat(owner, n - 1) == Repeat(owner, n);
    if OwnedPods(pods, owner) <= Seen(pods) {
      NothingToReap(next, owner, n - 1);
    } else if n == 1 {
      NoTurns(next, owner);
      SomeLeft(OwnedPods(pods, owner), Seen(pods));
    } else {
      TurnsOfOne(next, owner, n - 1);
    }
  }

  lemma SomeLeft(owned: set<string>, seen: set<string>)
    requires !(owned <= seen)
    ensures owned - seen != {}
  {
    var n :| n in owned && n !in seen;
    assert n in owned - seen;
  }

  lemma NoTurns(pods: map<string, Pod>, owner: string)
    ensures PodsAfter(pods, Repeat(owner, 0)) == pods && !ShownWithin(pods, owner, 0)
  {
  }

  /** Owners in the order of their turns, and how many turns in a row each has. */
  function Block(names: seq<string>, counts: seq<nat>): seq<string>
    requires |names| == |counts|
  {
    if names == [] then []
    else
      var last := |names| - 1;
      Block(names[..last], counts[..last]) + Repeat(names[last], counts[last])
  }

  ghost predicate ShownAt(pods: map<string, Pod>, names: seq<string>, counts: seq<nat>, k: nat)
    requires k < |names| == |counts|
  {
    ShownWithin(Spared(pods, Elements(names[..k])), names[k], counts[k])
  }

  /** At each owner's turn, with the pods of the owners before it gone, the listings show all it owns. */
  ghost predicate AllShown(pods: map<string, Pod>, names: seq<string>, counts: seq<nat>)
    requires |names| == |counts|
  {
    forall k :: 0 <= k < |names| ==> ShownAt(pods, names, counts, k)
  }

  lemma AllShownSnoc(pods: map<string, Pod>, names: seq<string>, counts: seq<nat>)
    requires names != [] && |names| == |counts|
    ensures AllShown(pods, names, counts)
      <==> AllShown(pods, names[..|names| - 1], counts[..|names| - 1]) && ShownAt(pods, names, counts, |names| - 1)
  {
    hide ShownWithin, Spared;
    var init, lower := names[..|names| - 1], counts[..|names| - 1];
    forall k | 0 <= k < |init| ensures ShownAt(pods, names, counts, k) <==> ShownAt(pods, init, lower, k) {
      assert init[..k] == names[..k] && init[k] == names[k];
    }
  }

  lemma SparedSnoc(pods: map<string, Pod>, names: seq<string>)
    requires names != []
    ensures var before, last := Spared(pods, Elements(names[..|names| - 1])), names[|names| - 1];
      Spared(pods, Elements(names)) == before - OwnedPods(before, last)
  {
    hide OwnedBy;
    var init, last := names[..|names| - 1], names[|names| - 1];
    assert Elements(names) == Elements(init) + {last} by { assert names == init + [last]; }
    forall owners ensures OwnedByOneOf(owners, Elements(init) + {last}) <==> OwnedByOneOf(owners, Elements(init)) || OwnedBy(owners, last) {
      assert last in Elements(init) + {last};
    }
    hide OwnedByOneOf, Elements;
  }

  lemma TakingAll(pods: map<string, Pod>, owned: set<string>)
    requires owned <= pods.Keys
    ensures pods - owned == pods <==> owned == {}
  {
    if pods - owned == pods {
      assert owned * pods.Keys == {};
    }
  }

  /** Whoever is shown in full takes all; this needs no premise. */
  lemma {:induction false} ShownSuffices(pods: map<string, Pod>, names: seq<string>, counts: seq<nat>)
    requires |names| == |counts| && AllShown(pods, names, counts)
    ensures PodsAfter(pods, Block(names, counts)) == Spared(pods, Elements(names))
    decreases |names|
  {
    hide OwnedPods, ShownWithin, Spared, Repeat;
    if names == [] {
      ElementsNone();
      SpareAll(pods);
    } else {
      var init, lower, last, count := names[..|names| - 1], counts[..|names| - 1], names[|names| - 1], counts[|names| - 1];
      AllShownSnoc(pods, names, counts);
      ShownSuffices(pods, init, lower);
      var before := Spared(pods, Elements(init));
      PodsAfterConcat(pods, Block(init, lower), Repeat(last, count));
      ShownPositive(before, last, count);
      TurnsOfOne(before, last, count);
      SparedSnoc(pods, names);
      TakingAllOwned(PodsAfter(before, Repeat(last, count)), last);
    }
  }

  lemma ShownPositive(pods: map<string, Pod>, owner: string, n: nat)
    requires ShownWithin(pods, owner, n)
    ensures n > 0
  {
  }

  lemma TakingAllOwned(pods: map<string, Pod>, owner: string)
    ensures pods - OwnedPods(pods, owner) == pods <==> OwnedPods(pods, owner) == {}
  {
    hide OwnedBy;
    TakingAll(pods, OwnedPods(pods, owner));
  }

  lemma {:induction false} OnlyRemoves(pods: map<string, Pod>, turns: seq<string>)
    ensures forall m :: m in PodsAfter(pods, turns) ==> m in pods && PodsAfter(pods, turns)[m] == pods[m]
  {
    hide SeenPods;
    if turns != [] {
      OnlyRemoves(pods, turns[..|turns| - 1]);
    }
  }

  lemma {:induction false} OnlyOwnersLose(pods: map<string, Pod>, turns: seq<string>, n: string)
    requires n in pods && forall o :: o in turns ==> !OwnedBy(pods[n].owners, o)
    ensures n in PodsAfter(pods, turns)
  {
    hide OwnedBy, Seen;
    if turns != [] {
      var init, last := turns[..|turns| - 1], turns[|turns| - 1];
      OnlyOwnersLose(pods, init, n);
      OnlyRemoves(pods, init);
      SeenAmongOwned(PodsAfter(pods, init), last);
    }
  }

  lemma {:induction false} BlockNames(names: seq<string>, counts: seq<nat>)
    requires |names| == |counts|
    ensures forall n :: n in Block(names, counts) ==> n in names
  {
    if names != [] {
      BlockNames(names[..|names| - 1], counts[..|names| - 1]);
    }
  }

  ghost predicate Different(names: seq<string>) {
    forall i, j :: 0 <= i < j < |names| ==> names[i] != names[j]
  }

  lemma LastIsDifferent(names: seq<string>)
    requires Different(names) && names != []
    ensures Different(names[..|names| - 1]) && names[|names| - 1] !in names[..|names| - 1]
  {
  }

  /** What was left of the earlier owners' pods, the last owner's turns leave too. */
  lemma LaterTurnsMiss(pods: map<string, Pod>, names: seq<string>, counts: seq<nat>)
    requires SingleOwners(pods) && Different(names) && names != [] && |names| == |counts|
    requires PodsAfter(pods, Block(names[..|names| - 1], counts[..|names| - 1])) != Spared(pods, Elements(names[..|names| - 1]))
    ensures PodsAfter(pods, Block(names, counts)) != Spared(pods, Elements(names))
  {
    hide OwnedBy, PodsAfter, Repeat;
    var init, lower, last := names[..|names| - 1], counts[..|names| - 1], names[|names| - 1];
    var before, turns := PodsAfter(pods, Block(init, lower)), Repeat(last, counts[|names| - 1]);
    LastIsDifferent(names);
    PodsAfterConcat(pods, Block(init, lower), turns);
    OnlyRemoves(pods, Block(init, lower));
    BlockNames(init, lower);
    var n := LeftOver(pods, init, lower);
    var o :| o in Elements(init) && OwnedBy(pods[n].owners, o);
    assert o in names && o != last;
    OnlyOneOwner(pods, n, o, turns, last);
    OnlyOwnersLose(before, turns, n);
    assert o in Elements(names);
    hide Spared;
    SparesNone(pods, Elements(names), n, o);
  }

  lemma OnlyOneOwner(pods: map<string, Pod>, n: string, o: string, turns: seq<string>, last: string)
    requires SingleOwners(pods) && n in pods && OwnedBy(pods[n].owners, o) && o != last && forall t :: t in turns ==> t == last
    ensures forall t :: t in turns ==> !OwnedBy(pods[n].owners, t)
  {
    hide OwnedBy;
  }

  lemma SparesNone(pods: map<string, Pod>, names: set<string>, n: string, o: string)
    requires n in pods && o in names && OwnedBy(pods[n].owners, o)
    ensures n !in Spared(pods, names)
  {
    hide OwnedBy;
  }

  lemma LeftOver(pods: map<string, Pod>, names: seq<string>, counts: seq<nat>) returns (n: string)
    requires |names| == |counts| && PodsAfter(pods, Block(names, counts)) != Spared(pods, Elements(names))
    ensures n in pods && n in PodsAfter(pods, Block(names, counts)) && OwnedByOneOf(pods[n].owners, Elements(names))
  {
    hide OwnedBy, PodsAfter, Block;
    var left, spared := PodsAfter(pods, Block(names, counts)), Spared(pods, Elements(names));
    OnlyRemoves(pods, Block(names, counts));
    forall m | m in spared ensures m in left {
      assert forall o :: o in Block(names, counts) ==> o in Elements(names) by { BlockNames(names, counts); }
      OnlyOwnersLose(pods, Block(names, counts), m);
    }
    n := OneMore(left, spared);
  }

  lemma OneMore(large: map<string, Pod>, small: map<string, Pod>) returns (n: string)
    requires large != small && forall m :: m in small ==> m in large && large[m] == small[m]
    ensures n in large && n !in small
  {
    if forall m :: m in large ==> m in small {
      SameMaps(large, small);
    }
    n :| n in large && n !in small;
  }

  lemma SameMaps(large: map<string, Pod>, small: map<string, Pod>)
    requires forall m :: m in small ==> m in large && large[m] == small[m]
    requires forall m :: m in large ==> m in small
    ensures large == small
  {
  }

  /** With one owner per pod, and each owner's turns in a row, showing all is also necessary. */
  lemma {:induction false} ShownExactly(pods: map<string, Pod>, names: seq<string>, counts: seq<nat>)
    requires SingleOwners(pods) && Different(names) && |names| == |counts| && forall i :: 0 <= i < |counts| ==> counts[i] > 0
    ensures PodsAfter(pods, Block(names, counts)) == Spared(pods, Elements(names)) <==> AllShown(pods, names, counts)
    decreases |names|
  {
    hide OwnedPods, ShownWithin, Spared, Repeat, OwnedBy, SingleOwners;
    if AllShown(pods, names, counts) {
      ShownSuffices(pods, names, counts);
    } else if names != [] {
      var init, lower, last, count := names[..|names| - 1], counts[..|names| - 1], names[|names| - 1], counts[|names| - 1];
      LastIsDifferent(names);
      AllShownSnoc(pods, names, counts);
      ShownExactly(pods, init, lower);
      if AllShown(pods, init, lower) {
        var before := Spared(pods, Elements(init));
        PodsAfterConcat(pods, Block(init, lower), Repeat(last, count));
        TurnsOfOne(before, last, count);
        SparedSnoc(pods, names);
        TakingAllOwned(PodsAfter(before, Repeat(last, count)), last);
      } else {
        LaterTurnsMiss(pods, names, counts);
      }
    }
  }

  /** For an owner with a single turn that is one listing, of what the owners before it do not own. */
  lemma ShownOnce(pods: map<string, Pod>, names: seq<string>, counts: seq<nat>, k: nat)
    requires SingleOwners(pods) && Different(names) && k < |names| == |counts| && counts[k] == 1
    ensures ShownAt(pods, names, counts, k) <==> OwnedPods(pods, names[k]) <= Seen(Spared(pods, Elements(names[..k])))
  {
    hide OwnedBy, Seen;
    var before, spared := Elements(names[..k]), Spared(pods, Elements(names[..k]));
    assert names[k] !in before;
    SparedKeeps(pods, before, names[k]);
    assert !ShownWithin(spared - SeenPods(spared, names[k]), names[k], 0);
    hide Spared;
  }

  lemma SparedKeeps(pods: map<string, Pod>, names: set<string>, owner: string)
    requires SingleOwners(pods) && owner !in names
    ensures OwnedPods(Spared(pods, names), owner) == OwnedPods(pods, owner)
  {
    hide OwnedBy;
  }

  // ----- a Deployment's turns -----

  /** The Deployment itself and then its listed ReplicaSets, each once. */
  ghost function Owners(c: Cluster, name: string): seq<string> {
    [name] + Among(Page(SetSizes(c.sets)), OwnedSets(c.sets, name))
  }

  lemma {:induction false} BlockFront(n: string, k: nat, names: seq<string>, counts: seq<nat>)
    requires |names| == |counts|
    ensures Block([n] + names, [k] + counts) == Repeat(n, k) + Block(names, counts)
  {
    hide Repeat;
    var last := |names| - 1;
    if names == [] {
      assert ([n] + names)[..0] == [] && ([k] + counts)[..0] == [];
      assert [] + Repeat(n, k) == Repeat(n, k) + [];
    } else {
      BlockFront(n, k, names[..last], counts[..last]);
      assert ([n] + names)[..|names|] == [n] + names[..last] && ([k] + counts)[..|names|] == [k] + counts[..last];
    }
  }

  function CountsOf(names: seq<string>, sets: map<string, ReplicaSet>, owner: string): (counts: seq<nat>)
    ensures |counts| == |names| && forall i :: 0 <= i < |names| ==> counts[i] == RefCount(sets, names[i], owner)
  {
    seq(|names|, i requires 0 <= i < |names| => RefCount(sets, names[i], owner))
  }

  /** How many turns each has: one, and then one for each reference to the Deployment. */
  ghost function References(c: Cluster, name: string): (counts: seq<nat>)
    ensures |counts| == |Owners(c, name)|
  {
    [1] + CountsOf(Among(Page(SetSizes(c.sets)), OwnedSets(c.sets, name)), c.sets, name)
  }

  lemma AmongStep(names: seq<string>, chosen: set<string>)
    requires names != []
    ensures names[0] in chosen ==> Among(names, chosen) == [names[0]] + Among(names[1..], chosen)
    ensures names[0] !in chosen ==> Among(names, chosen) == Among(names[1..], chosen)
  {
  }

  lemma RepeatedStep(names: seq<string>, sets: map<string, ReplicaSet>, owner: string)
    requires names != []
    ensures Repeated(names, sets, owner) == Repeat(names[0], RefCount(sets, names[0], owner)) + Repeated(names[1..], sets, owner)
  {
  }

  lemma CountsStep(n: string, rest: seq<string>, sets: map<string, ReplicaSet>, owner: string)
    ensures CountsOf([n] + rest, sets, owner) == [RefCount(sets, n, owner)] + CountsOf(rest, sets, owner)
  {
    hide RefCount;
  }

  lemma {:induction false} RepeatedBlock(names: seq<string>, sets: map<string, ReplicaSet>, owner: string)
    ensures var chosen := Among(names, OwnedSets(sets, owner));
      Repeated(names, sets, owner) == Block(chosen, CountsOf(chosen, sets, owner))
  {
    hide Block, Repeat, OwnedSets, RefCount, CountsOf, Among, Repeated;
    if names == [] {
      NothingRepeated(sets, owner);
    } else {
      var rest, count := Among(names[1..], OwnedSets(sets, owner)), RefCount(sets, names[0], owner);
      RepeatedBlock(names[1..], sets, owner);
      CountOwned(names[0], sets, owner);
      AmongStep(names, OwnedSets(sets, owner));
      RepeatedStep(names, sets, owner);
      if names[0] in OwnedSets(sets, owner) {
        BlockFront(names[0], count, rest, CountsOf(rest, sets, owner));
        CountsStep(names[0], rest, sets, owner);
      } else {
        NoRepeat(names[0], Repeated(names[1..], sets, owner));
      }
    }
  }

  lemma NothingRepeated(sets: map<string, ReplicaSet>, owner: string)
    ensures Repeated([], sets, owner) == [] && Among([], OwnedSets(sets, owner)) == []
    ensures CountsOf([], sets, owner) == [] && Block([], []) == []
  {
    hide OwnedSets;
  }

  lemma NoRepeat(n: string, rest: seq<string>)
    ensures Repeat(n, 0) + rest == rest
  {
  }

  lemma CountOwned(n: string, sets: map<string, ReplicaSet>, owner: string)
    ensures RefCount(sets, n, owner) > 0 <==> n in OwnedSets(sets, owner)
  {
    if n in sets {
      TimesOwned(sets[n].owners, owner);
    }
  }

  lemma TurnsAreBlocks(c: Cluster, name: string)
    ensures Block(Owners(c, name), References(c, name)) == [name] + SeenSets(c.sets, name)
  {
    hide Block, Repeated, Repeat, OwnedSets, RefCount, Page, Among, CountsOf;
    var listed := Among(Page(SetSizes(c.sets)), OwnedSets(c.sets, name));
    RepeatedBlock(Page(SetSizes(c.sets)), c.sets, name);
    BlockFront(name, 1, listed, CountsOf(listed, c.sets, name));
    RepeatOnce(name);
  }

  lemma RepeatOnce(n: string)
    ensures Repeat(n, 1) == [n]
  {
  }

  lemma OwnersShown(c: Cluster, name: string)
    ensures Elements(Owners(c, name)) == {name} + Elements(SeenSets(c.sets, name))
  {
    AmongSeen(c.sets, name);
    hide OwnedSets, Page, SeenSets, Among, Elements;
    SameElements(name, Among(Page(SetSizes(c.sets)), OwnedSets(c.sets, name)), SeenSets(c.sets, name));
  }

  lemma ReferencesPositive(c: Cluster, name: string)
    ensures forall i :: 0 <= i < |References(c, name)| ==> References(c, name)[i] > 0
  {
    hide OwnedSets, Page, CountsOf;
    PositiveCounts(Among(Page(SetSizes(c.sets)), OwnedSets(c.sets, name)), c.sets, name);
    hide Among;
  }

  lemma PositiveCounts(names: seq<string>, sets: map<string, ReplicaSet>, owner: string)
    requires forall n :: n in names ==> n in OwnedSets(sets, owner)
    ensures forall i :: 0 <= i < |names| ==> CountsOf(names, sets, owner)[i] > 0
  {
    hide OwnedSets, RefCount;
    forall i | 0 <= i < |names| ensures RefCount(sets, names[i], owner) > 0 {
      CountOwned(names[i], sets, owner);
    }
  }

  lemma AmongSeen(sets: map<string, ReplicaSet>, owner: string)
    ensures forall n :: n in Among(Page(SetSizes(sets)), OwnedSets(sets, owner)) <==> n in SeenSets(sets, owner)
  {
    SeenSetNames(sets, owner);
    hide OwnedSets, Page, SetSizes, Repeated, Among, SeenSets;
  }

  lemma SameElements(first: string, a: seq<string>, b: seq<string>)
    requires forall n :: n in a <==> n in b
    ensures Elements([first] + a) == {first} + Elements(b)
  {
  }

  lemma CascadeTurns(c: Cluster, name: string)
    ensures var r := DeleteDeployment(c, name);
      r.pods == PodsAfter(c.pods, [name] + SeenSets(c.sets, name)) && r.sets == c.sets - Elements(SeenSets(c.sets, name))
  {
    hide SeenPods, SeenSets, Elements, ReapSets, PodsAfter;
    var reaped := c.(deployments := c.deployments - {name}, pods := c.pods - SeenPods(c.pods, name));
    ReapTurns(reaped, SeenSets(c.sets, name));
    ReapRest(reaped, SeenSets(c.sets, name));
    PodsAfterOne(c.pods, name);
    PodsAfterConcat(c.pods, [name], SeenSets(c.sets, name));
  }

  /** Every owned ReplicaSet is listed, and at each owner's turn the listings show all the pods it owns. */
  ghost predicate Shown(c: Cluster, name: string) {
    && OwnedSets(c.sets, name) <= Elements(SeenSets(c.sets, name))
    && AllShown(c.pods, Owners(c, name), References(c, name))
  }

  ghost predicate OwnsNothing(r: Cluster, name: string, owners: set<string>) {
    OwnedSets(r.sets, name) == {} && forall o :: o in owners ==> OwnedPods(r.pods, o) == {}
  }

  lemma OwnersDiffer(c: Cluster, name: string)
    requires name !in OwnedSets(c.sets, name)
    ensures Different(Owners(c, name))
  {
    hide OwnedSets, Page;
    PageDiffers(SetSizes(c.sets));
    AmongDiffers(Page(SetSizes(c.sets)), OwnedSets(c.sets, name));
  }

  lemma PageDiffers(sizes: map<string, nat>)
    ensures Different(Page(sizes))
  {
    hide RankedNames;
  }

  lemma {:induction false} AmongDiffers(names: seq<string>, chosen: set<string>)
    requires Different(names)
    ensures Different(Among(names, chosen))
  {
    if names != [] {
      AmongDiffers(names[1..], chosen);
    }
  }

  /**
   * When all that a Deployment owns is shown, nothing of it outlives the deletion. With one owner
   * per pod (and no owned ReplicaSet of the Deployment's own name) this is also necessary.
   */
  lemma NothingRemainsExactly(c: Cluster, name: string)
    ensures Shown(c, name) ==> OwnsNothing(DeleteDeployment(c, name), name, {name} + OwnedSets(c.sets, name))
    ensures SingleOwners(c.pods) && name !in OwnedSets(c.sets, name) ==>
      (Shown(c, name) <==> OwnsNothing(DeleteDeployment(c, name), name, {name} + OwnedSets(c.sets, name)))
  {
    hide OwnedBy, SeenSets, Elements, DeleteDeployment, PodsAfter, Block, OwnedSets, OwnedPods, AllShown, Spared, Owners, References, SingleOwners;
    var r, names, counts := DeleteDeployment(c, name), Owners(c, name), References(c, name);
    CascadeTurns(c, name);
    TurnsAreBlocks(c, name);
    OwnersShown(c, name);
    SetsLeft(c, name);
    SeenSetsOwned(c.sets, name);
    var left := PodsAfter(c.pods, Block(names, counts));
    if OwnedSets(c.sets, name) <= Elements(SeenSets(c.sets, name)) {
      assert Elements(names) == {name} + OwnedSets(c.sets, name);
      OnlySpared(c.pods, names, counts);
      if AllShown(c.pods, names, counts) {
        ShownSuffices(c.pods, names, counts);
      }
      if SingleOwners(c.pods) && name !in OwnedSets(c.sets, name) {
        OwnersDiffer(c, name);
        ReferencesPositive(c, name);
        ShownExactly(c.pods, names, counts);
      }
    }
  }

  /** The spared pods are always left; they are all that is left exactly when no named owner owns one of these. */
  lemma OnlySpared(pods: map<string, Pod>, names: seq<string>, counts: seq<nat>)
    requires |names| == |counts|
    ensures var left := PodsAfter(pods, Block(names, counts));
      left == Spared(pods, Elements(names)) <==> forall o :: o in Elements(names) ==> OwnedPods(left, o) == {}
  {
    hide OwnedBy, PodsAfter, Block, Elements, OwnedPods;
    var left := PodsAfter(pods, Block(names, counts));
    OnlyRemoves(pods, Block(names, counts));
    NoneOwned(left, Elements(names));
    if left != Spared(pods, Elements(names)) {
      var n := LeftOver(pods, names, counts);
    }
    hide OwnedByOneOf;
  }

  lemma SetsLeft(c: Cluster, name: string)
    ensures OwnedSets(c.sets - Elements(SeenSets(c.sets, name)), name) == {} <==> OwnedSets(c.sets, name) <= Elements(SeenSets(c.sets, name))
  {
    hide OwnedBy, SeenSets, Elements;
    var left := c.sets - Elements(SeenSets(c.sets, name));
    var owned, shown := OwnedSets(c.sets, name), Elements(SeenSets(c.sets, name));
    assert OwnedSets(left, name) == owned - shown;
    assert owned - shown == {} ==> forall o :: o in owned ==> o !in owned - shown;
  }

  lemma NoneOwned(pods: map<string, Pod>, owners: set<string>)
    ensures (forall o :: o in owners ==> OwnedPods(pods, o) == {}) <==> forall n :: n in pods ==> !OwnedByOneOf(pods[n].owners, owners)
  {
    hide OwnedBy;
    if forall o :: o in owners ==> OwnedPods(pods, o) == {} {
      forall n, o | n in pods && o in owners ensures !OwnedBy(pods[n].owners, o) {
        assert n !in OwnedPods(pods, o);
      }
    }
  }

  // ----- listings that do not fit -----

  const LARGEST := 0x4_0000

  lemma {:induction false} SumOfEqual(lengths: seq<nat>, n: nat, each: nat)
    requires n <= |lengths| && forall i :: 0 <= i < |lengths| ==> lengths[i] == each
    ensures Paging.Sum(lengths, 0, n) == n * each
  {
    if n > 0 {
      SumOfEqual(lengths, n - 1, each);
      assert (n - 1) * each + each == n * each;
    }
  }

  /** Of objects of the largest size a page shows four. */
  lemma FourToAPage(sizes: map<string, nat>)
    requires forall n :: n in sizes ==> sizes[n] == LARGEST
    ensures |Elements(Page(sizes))| <= 4
  {
    hide RankedNames;
    var ranked := RankedNames(sizes.Keys);
    assert forall i :: 0 <= i < |ranked| ==> ranked[i] in Elements(ranked);
    var lengths := SizesAt(ranked, sizes);
    assert Paging.Sum(lengths, 0, 0) == 0;
    Paging.ExtendIsLargest(lengths, 0, 0, Paging.MAX_LIST_PAGE_ITEMS);
    var end := Paging.Extend(lengths, 0, 0, 0, Paging.MAX_LIST_PAGE_ITEMS);
    SumOfEqual(lengths, end, LARGEST);
    ElementsSize(ranked[..end]);
  }

  lemma OneName(set_: string, sizes: map<string, nat>)
    requires sizes.Keys == {set_}
    ensures Page(sizes) == [set_]
  {
    hide RankedNames;
    assert |sizes| == |sizes.Keys| == 1;
    SeesAllExactly(sizes);
    var ranked := RankedNames(sizes.Keys);
    assert |ranked| == 1 && ranked[0] in Elements(ranked);
    assert set_ in Elements(Page(sizes));
  }

  /** The cascade of a Deployment with one ReplicaSet and no pods of its own. */
  lemma CascadeOfOne(c: Cluster, name: string, rsName: string)
    requires c.sets.Keys == {rsName} && Times(c.sets[rsName].owners, name) == 1 && OwnedPods(c.pods, name) == {}
    ensures DeleteDeployment(c, name).pods == c.pods - SeenPods(c.pods, rsName)
  {
    hide OwnedBy, SeenPods, SeenSets, OwnedPods, ReapSets;
    SeenAmongOwned(c.pods, name);
    OneSeen(c.sets, name, rsName);
    assert SeenPods(c.pods, name) == {} && c.pods - {} == c.pods;
    ReapedOne(c.(deployments := c.deployments - {name}, pods := c.pods - {}), rsName);
  }

  lemma OneSeen(sets: map<string, ReplicaSet>, owner: string, n: string)
    requires sets.Keys == {n} && Times(sets[n].owners, owner) == 1
    ensures SeenSets(sets, owner) == [n]
  {
    hide Page, OwnedBy, SetSizes, Times;
    SetSizesKeys(sets);
    OneName(n, SetSizes(sets));
    RepeatedOne(n, sets, owner);
  }

  lemma RepeatedOne(n: string, sets: map<string, ReplicaSet>, owner: string)
    requires n in sets
    ensures Repeated([n], sets, owner) == Repeat(n, Times(sets[n].owners, owner))
  {
    hide Repeat, Times;
    assert [n][1..] == [] && Repeated([], sets, owner) == [];
  }

  lemma ReapedOne(c: Cluster, n: string)
    ensures ReapSets(c, [n]).pods == c.pods - SeenPods(c.pods, n)
  {
    hide SeenPods;
    assert [n][1..] == [];
  }

  /** Five such pods of one ReplicaSet outlive the deletion of its Deployment. */
  lemma LargePodsSurvive(c: Cluster, name: string, rsName: string)
    requires c.sets.Keys == {rsName} && Times(c.sets[rsName].owners, name) == 1
    requires |c.pods| >= 5 && OwnedPods(c.pods, rsName) == c.pods.Keys && OwnedPods(c.pods, name) == {}
    requires forall n :: n in c.pods ==> c.pods[n].size == LARGEST
    ensures OwnedPods(DeleteDeployment(c, name).pods, rsName) != {}
  {
    hide Page, OwnedBy, DeleteDeployment, Elements;
    CascadeOfOne(c, name, rsName);
    var seen := SeenPods(c.pods, rsName);
    FourToAPage(PodSizes(c.pods));
    SubsetSize(seen, Elements(Page(PodSizes(c.pods))));
    assert |c.pods.Keys| == |c.pods|;
    Leftover(c.pods.Keys, seen);
    var n :| n in c.pods.Keys - seen;
    assert n in OwnedPods(c.pods - seen, rsName);
  }

  lemma Leftover(all: set<string>, seen: set<string>)
    requires seen <= all && |seen| < |all|
    ensures all - seen != {}
  {
    assert |all - seen| == |all| - |seen|;
  }

  const LARGE_POD := Pod([OwnerRef("apps/v1", "ReplicaSet", "web-1", true)], "{}", LARGEST)

  /** Five pods, a twentieth of what a page may count, which together are too long for one. */
  const LARGE_CLUSTER := Cluster(
    map["a" := LARGE_POD, "b" := LARGE_POD, "c" := LARGE_POD, "d" := LARGE_POD, "e" := LARGE_POD],
    map["web-1" := ReplicaSet([OwnerRef("apps/v1", "Deployment", "web", true)], 5, "{}", Counts(5, 5, 5), 1000)],
    map["web" := Deployment(5, "{}", Counts(5, 5, 5), 5)],
    map[],
    3)

  lemma TooLongForOne(pods: map<string, Pod>)
    requires |pods| >= 5 && forall n :: n in pods ==> pods[n].size == LARGEST
    ensures !PodsFit(pods)
  {
    hide Page, Elements, OnOnePage;
    var sizes := PodSizes(pods);
    assert sizes.Keys == pods.Keys && |sizes.Keys| == |pods|;
    FourToAPage(sizes);
    SeesAllExactly(sizes);
  }

  lemma OneSetFits(sets: map<string, ReplicaSet>, n: string)
    requires sets.Keys == {n}
    ensures SetsFit(sets)
  {
    SetSizesKeys(sets);
    assert |SetSizes(sets)| == |SetSizes(sets).Keys|;
  }

  lemma CascadeCanLeavePods()
    ensures |LARGE_CLUSTER.pods| == 5 && !PodsFit(LARGE_CLUSTER.pods) && SetsFit(LARGE_CLUSTER.sets)
    ensures OwnedPods(DeleteDeployment(LARGE_CLUSTER, "web").pods, "web-1") != {}
  {
    hide Page, DeleteDeployment, OwnedBy, PodsFit, SetsFit, OwnedPods;
    LargeClusterShape();
    LargePodsSurvive(LARGE_CLUSTER, "web", "web-1");
    TooLongForOne(LARGE_CLUSTER.pods);
    OneSetFits(LARGE_CLUSTER.sets, "web-1");
  }

  /** The same cluster, with a ReplicaSet that names the Deployment twice. */
  const DOUBLED := LARGE_CLUSTER.(sets := map["web-1" := DOUBLED_SET])
  const DOUBLED_SET := ReplicaSet([OwnerRef("apps/v1", "Deployment", "web", true), OwnerRef("apps/v1", "Deployment", "web", true)], 5, "{}", Counts(5, 5, 5), 1000)

  lemma DoubledShape()
    ensures Times(DOUBLED_SET.owners, "web") == 2 && OwnedSets(DOUBLED.sets, "web") == {"web-1"}
  {
    var owners := DOUBLED_SET.owners;
    assert owners[0].name == "web" && owners[1..][0].name == "web";
    assert owners[1..][1..] == [] && Times([], "web") == 0;
  }

  lemma DoubledOwners()
    ensures Owners(DOUBLED, "web") == ["web", "web-1"] && References(DOUBLED, "web") == [1, 2]
    ensures OwnedSets(DOUBLED.sets, "web") <= Elements(SeenSets(DOUBLED.sets, "web"))
  {
    hide Page, OwnedSets, SetSizes, Elements, SeenSets, SetsFit, Times;
    DoubledShape();
    SetSizesKeys(DOUBLED.sets);
    OneName("web-1", SetSizes(DOUBLED.sets));
    AmongStep(["web-1"], OwnedSets(DOUBLED.sets, "web"));
    assert ["web-1"][1..] == [] && Among([], OwnedSets(DOUBLED.sets, "web")) == [];
    assert ["web"] + ["web-1"] == ["web", "web-1"] && [1] + [2] == [1, 2];
    OneSetFits(DOUBLED.sets, "web-1");
    SeenSetElements(DOUBLED.sets, "web");
  }

  lemma PageNotEmpty(pods: map<string, Pod>)
    requires pods != map[]
    ensures Seen(pods) != {}
  {
    hide RankedNames;
    var sizes := PodSizes(pods);
    PodSizesKeys(pods);
    var n :| n in pods;
    var ranked := RankedNames(sizes.Keys);
    assert n in Elements(ranked);
    InElements(ranked);
    var lengths := SizesAt(ranked, sizes);
    assert Paging.Sum(lengths, 0, 0) == 0;
    Paging.ExtendIsLargest(lengths, 0, 0, Paging.MAX_LIST_PAGE_ITEMS);
    assert Paging.Fits(lengths, 0, 1, Paging.MAX_LIST_PAGE_ITEMS);
    assert ranked[0] in Elements(Page(sizes));
  }

  lemma FourFit(pods: map<string, Pod>)
    requires |pods| <= 4 && forall n :: n in pods ==> pods[n].size <= LARGEST
    ensures PodsFit(pods)
  {
    PodSizesKeys(pods);
    TotalWithin(PodSizes(pods), LARGEST);
    assert |PodSizes(pods)| == |PodSizes(pods).Keys| == |pods.Keys| == |pods|;
    hide Total;
  }

  /** The second of two turns finds what the first did not show, of five such pods. */
  lemma TwoListings(pods: map<string, Pod>, owner: string)
    requires |pods| == 5 && OwnedPods(pods, owner) == pods.Keys && forall n :: n in pods ==> pods[n].size <= LARGEST
    ensures ShownWithin(pods, owner, 2)
  {
    hide OwnedBy, Seen, PodsFit;
    var left := pods - SeenPods(pods, owner);
    PageNotEmpty(pods);
    ReapedSome(pods, owner);
    SeenOfAll(pods, owner);
    Fewer(pods, Seen(pods));
    FourFit(left);
    SeenAll(left, owner);
    assert ShownWithin(left, owner, 1);
  }

  lemma SeenOfAll(pods: map<string, Pod>, owner: string)
    requires OwnedPods(pods, owner) == pods.Keys
    ensures SeenPods(pods, owner) == Seen(pods) <= pods.Keys
  {
    hide OwnedPods;
    PodSizesKeys(pods);
  }

  lemma Fewer(pods: map<string, Pod>, seen: set<string>)
    requires seen != {} && seen <= pods.Keys
    ensures |pods - seen| < |pods|
  {
    var n :| n in seen;
    assert (pods - seen).Keys == pods.Keys - seen;
    assert |pods.Keys - seen| == |pods.Keys| - |seen|;
    assert |pods - seen| == |(pods - seen).Keys| && |pods| == |pods.Keys|;
  }

  /** A second reference is a second turn: here the cascade leaves nothing after all. */
  lemma TwoReferencesClear()
    ensures OwnsNothing(DeleteDeployment(DOUBLED, "web"), "web", {"web", "web-1"})
  {
    hide Page, OwnedBy, OwnedPods, OwnedSets, ShownWithin, Spared, Elements, DeleteDeployment, OwnsNothing, Owners, References, SeenSets;
    LargeClusterShape();
    DoubledShape();
    DoubledOwners();
    var pods, names, counts := DOUBLED.pods, Owners(DOUBLED, "web"), References(DOUBLED, "web");
    TwoListings(pods, "web-1");
    NoneBefore(pods, "web");
    assert names[..0] == [] && names[..1] == ["web"];
    assert {"web"} + {"web-1"} == {"web", "web-1"};
    forall k | 0 <= k < |names| ensures ShownAt(pods, names, counts, k) {
    }
    NothingRemainsExactly(DOUBLED, "web");
  }

  lemma NoneBefore(pods: map<string, Pod>, owner: string)
    requires OwnedPods(pods, owner) == {}
    ensures Spared(pods, Elements([])) == pods && Spared(pods, Elements([owner])) == pods
    ensures ShownWithin(pods, owner, 1)
  {
    hide OwnedBy, Seen;
    ElementsNone();
    SpareAll(pods);
    OneElement(owner);
    forall n | n in pods ensures !OwnedByOneOf(pods[n].owners, {owner}) {
      assert n !in OwnedPods(pods, owner);
    }
    hide Elements;
  }

  lemma LargeClusterShape()
    ensures LARGE_CLUSTER.pods.Keys == {"a", "b", "c", "d", "e"} && |LARGE_CLUSTER.pods| == 5
    ensures OwnedPods(LARGE_CLUSTER.pods, "web-1") == LARGE_CLUSTER.pods.Keys && OwnedPods(LARGE_CLUSTER.pods, "web") == {}
    ensures forall n :: n in LARGE_CLUSTER.pods ==> LARGE_CLUSTER.pods[n] == LARGE_POD
    ensures LARGE_CLUSTER.sets.Keys == {"web-1"} && Times(LARGE_CLUSTER.sets["web-1"].owners, "web") == 1
  {
    assert |LARGE_CLUSTER.pods.Keys| == 5;
    LargePodOwner();
    ReferencedOnce();
    hide OwnedBy, Times;
  }

  lemma ReferencedOnce()
    ensures Times([OwnerRef("apps/v1", "Deployment", "web", true)], "web") == 1
  {
    var owners := [OwnerRef("apps/v1", "Deployment", "web", true)];
    assert owners[1..] == [] && Times([], "web") == 0;
  }

  lemma LargePodOwner()
    ensures OwnedBy(LARGE_POD.owners, "web-1") && !OwnedBy(LARGE_POD.owners, "web")
  {
    assert LARGE_POD.owners[0].name == "web-1";
  }
}
