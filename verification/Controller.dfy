/** The reconcile functions as they run: loops over listed names that put and delete one object at a time. */
module Controller {
  import opened Order
  import opened PodNames
  import opened ControllerModel
  import Paging

  /** The names of a listing in order, from objects visited in whatever order the map yields them. */
  method RankNames(names: set<string>) returns (ranked: seq<string>)
    ensures ranked == RankedNames(names)
  {
    var candidates: seq<Place> := [];
    var pending := names;
    while pending != {}
      invariant pending <= names
      invariant forall i, j :: 0 <= i < j < |candidates| ==> candidates[i] != candidates[j]
      invariant forall p :: p in candidates <==> p.namespace == "" && p.name in names - pending
      decreases pending
    {
      var n :| n in pending;
      pending := pending - {n};
      candidates := candidates + [Place("", n)];
    }
    var places := Sort(candidates);
    assert Elements(candidates) == PlacesOf(names);
    ranked := seq(|places|, i requires 0 <= i < |places| => places[i].name);
  }

  /** The first page of a listing by name: items are added until the page is full by count or by bytes. */
  method FirstPage(sizes: map<string, nat>) returns (page: seq<string>)
    ensures page == Page(sizes)
    ensures forall k :: 0 <= k < |page| ==> page[k] in sizes
  {
    hide RankedNames;
    var ranked := RankNames(sizes.Keys);
    assert forall i :: 0 <= i < |ranked| ==> ranked[i] in Elements(ranked);
    ghost var lengths := SizesAt(ranked, sizes);
    var index, usedBytes: nat := 0, 0;
    while index < |ranked| && index < Paging.MAX_LIST_PAGE_ITEMS
      invariant 0 <= index <= |ranked|
      invariant Paging.Extend(lengths, 0, 0, 0, Paging.MAX_LIST_PAGE_ITEMS)
             == Paging.Extend(lengths, index, index, usedBytes, Paging.MAX_LIST_PAGE_ITEMS)
    {
      var length := sizes[ranked[index]];
      if usedBytes + length > Paging.MAX_LIST_PAGE_BYTES && index > 0 {
        break;
      }
      Paging.ExtendStep(lengths, index, index, usedBytes, Paging.MAX_LIST_PAGE_ITEMS);
      usedBytes := usedBytes + length;
      index := index + 1;
    }
    Paging.ExtendStop(lengths, index, index, usedBytes, Paging.MAX_LIST_PAGE_ITEMS);
    page := ranked[..index];
  }

  lemma ElementsSnoc(names: seq<string>, i: nat)
    requires i < |names|
    ensures Elements(names[..i + 1]) == Elements(names[..i]) + {names[i]}
  {
    assert names[..i + 1] == names[..i] + [names[i]];
  }

  /** The pods with the wanted names added that are neither taken nor refused. */
  function Created(pods: map<string, Pod>, wanted: set<string>, pod: Pod, puts: Puts): map<string, Pod> {
    pods + (map n | n in wanted && n !in pods && n !in puts.pods :: pod.(size := puts.podSize(n)))
  }

  lemma InWanted(wanted: seq<string>, i: nat)
    requires i < |wanted|
    ensures wanted[i] in Elements(wanted)
  {
  }

  lemma CreatedNone(pods: map<string, Pod>, pod: Pod, puts: Puts)
    ensures Created(pods, {}, pod, puts) == pods
  {
  }

  lemma CreatedOneMore(pods: map<string, Pod>, wanted: set<string>, pod: Pod, puts: Puts, n: string)
    ensures Created(pods, wanted + {n}, pod, puts) == Created(Created(pods, wanted, pod, puts), {n}, pod, puts)
    ensures n in pods ==> Created(pods, wanted + {n}, pod, puts) == Created(pods, wanted, pod, puts)
  {
  }

  lemma SeenRepeated(sets: map<string, ReplicaSet>, owner: string)
    ensures SeenSets(sets, owner) == Repeated(Page(SetSizes(sets)), sets, owner)
  {
  }

  lemma RepeatedNone(names: seq<string>, sets: map<string, ReplicaSet>, owner: string)
    ensures Repeated(names[|names|..], sets, owner) == []
  {
  }

  lemma RepeatedHead(names: seq<string>, i: nat, sets: map<string, ReplicaSet>, owner: string)
    requires i < |names| && names[i] in sets
    ensures Repeated(names[i..], sets, owner) == Repeat(names[i], Times(sets[names[i]].owners, owner)) + Repeated(names[i + 1..], sets, owner)
  {
    assert names[i..][1..] == names[i + 1..];
  }

  lemma TimesNone(owners: seq<OwnerRef>, owner: string)
    ensures Times(owners[|owners|..], owner) == 0
  {
  }

  lemma TimesHead(owners: seq<OwnerRef>, j: nat, owner: string)
    requires j < |owners|
    ensures Times(owners[j..], owner) == (if owners[j].name == owner then 1 else 0) + Times(owners[j + 1..], owner)
  {
    assert owners[j..][1..] == owners[j + 1..];
  }

  lemma RepeatOneMore(names: seq<string>, n: string, count: nat)
    ensures names + Repeat(n, 1 + count) == (names + [n]) + Repeat(n, count)
    ensures names + Repeat(n, 0) == names
  {
  }

  class Controller {
    var pods: map<string, Pod>
    var sets: map<string, ReplicaSet>
    var deployments: map<string, Deployment>
    var workloads: map<WorkloadKey, Workload>
    const nodeCount: nat

    function View(): Cluster
      reads this
    {
      Cluster(pods, sets, deployments, workloads, nodeCount)
    }

    constructor (nodes: nat)
      ensures View() == Cluster(map[], map[], map[], map[], nodes)
    {
      pods, sets, deployments, workloads := map[], map[], map[], map[];
      nodeCount := nodes;
    }

    method Owned(owners: seq<OwnerRef>, name: string) returns (owned: bool)
      ensures owned == OwnedBy(owners, name)
    {
      for i := 0 to |owners|
        invariant forall k :: 0 <= k < i ==> owners[k].name != name
      {
        if owners[i].name == name {
          return true;
        }
      }
      return false;
    }

    method OwnedPodNames(ownerName: string) returns (owned: set<string>)
      ensures owned == SeenPods(pods, ownerName)
    {
      hide OwnedBy, Page, PodSizes, Elements;
      PodSizesKeys(pods);
      var page := FirstPage(PodSizes(pods));
      NoElements(page);
      owned := {};
      for i := 0 to |page|
        invariant owned == OwnedPods(pods, ownerName) * Elements(page[..i])
      {
        ElementsSnoc(page, i);
        var mine := Owned(pods[page[i]].owners, ownerName);
        if mine {
          owned := owned + {page[i]};
        }
      }
      assert page[..|page|] == page;
    }

    /** A ReplicaSet is listed once for each of its references to the owner. */
    method DeploymentReplicaSets(deployName: string) returns (names: seq<string>)
      ensures names == SeenSets(sets, deployName)
    {
      hide Page, SetSizes, Repeated, Repeat, OwnedSets, SeenSets, Elements, Times;
      SetSizesKeys(sets);
      var page := FirstPage(SetSizes(sets));
      names := [];
      assert page[0..] == page;
      for i := 0 to |page|
        invariant names + Repeated(page[i..], sets, deployName) == Repeated(page, sets, deployName)
      {
        RepeatedHead(page, i, sets, deployName);
        names := AppendReferenced(names, page[i], sets[page[i]].owners, deployName);
      }
      RepeatedNone(page, sets, deployName);
      SeenRepeated(sets, deployName);
    }

    method AppendReferenced(before: seq<string>, n: string, owners: seq<OwnerRef>, deployName: string) returns (names: seq<string>)
      ensures names == before + Repeat(n, Times(owners, deployName))
    {
      hide Repeat, Times;
      names := before;
      assert owners[0..] == owners;
      for j := 0 to |owners|
        invariant names + Repeat(n, Times(owners[j..], deployName)) == before + Repeat(n, Times(owners, deployName))
      {
        TimesHead(owners, j, deployName);
        RepeatOneMore(names, n, Times(owners[j + 1..], deployName));
        if owners[j].name == deployName {
          names := names + [n];
        }
      }
      TimesNone(owners, deployName);
      RepeatOneMore(names, n, 0);
    }

    /** Deletes the named pods, in whatever order the set yields them. */
    method DeletePods(names: set<string>)
      modifies this`pods
      ensures pods == old(pods) - names
    {
      var pending := names;
      while pending != {}
        invariant pending <= names
        invariant pods == old(pods) - (names - pending)
        decreases pending
      {
        var n :| n in pending;
        assert names - (pending - {n}) == (names - pending) + {n};
        pending := pending - {n};
        pods := pods - {n};
      }
      assert names - pending == names;
    }

    /** Puts each wanted pod that did not exist; a put of a taken name, or a refused one, changes nothing. */
    method CreatePods(wanted: seq<string>, existing: set<string>, pod: Pod, puts: Puts)
      requires existing * Elements(wanted) <= pods.Keys
      modifies this`pods
      ensures pods == Created(old(pods), Elements(wanted), pod, puts)
    {
      hide Elements, Created;
      CreatedNone(pods, pod, puts);
      NoElements(wanted);
      for i := 0 to |wanted|
        invariant pods == Created(old(pods), Elements(wanted[..i]), pod, puts)
      {
        ElementsSnoc(wanted, i);
        CreatedOneMore(old(pods), Elements(wanted[..i]), pod, puts, wanted[i]);
        if wanted[i] in existing {
          InWanted(wanted, i);
          continue;
        }
        CreateOne(wanted[i], pod, puts);
      }
      assert wanted[..|wanted|] == wanted;
    }

    /** A put as ADDED of one pod. */
    method CreateOne(n: string, pod: Pod, puts: Puts)
      modifies this`pods
      ensures pods == Created(old(pods), {n}, pod, puts)
    {
      if n !in pods && n !in puts.pods {
        pods := pods[n := pod.(size := puts.podSize(n))];
      }
    }

    /** The pod half of a reconcile: reap what is not wanted, top up what is missing. */
    method SyncOwnedPods(owner: string, wanted: seq<string>, pod: Pod, puts: Puts)
      modifies this`pods
      ensures pods == SyncPods(old(pods), owner, Elements(wanted), pod, puts)
    {
      hide Page, OwnedBy;
      var existing := OwnedPodNames(owner);
      var keep: set<string> := set n | n in wanted;
      DeletePods(existing - keep);
      CreatePods(wanted, existing, pod, puts);
    }

    method MaterializePods(apiVersion: string, kind: string, name: string, w: Workload, puts: Puts)
      modifies this`pods
      ensures View() == ControllerModel.MaterializePods(old(View()), apiVersion, kind, name, w, puts)
    {
      var desired := w.replicas;
      if kind == "DaemonSet" {
        desired := nodeCount;
      } else if kind == "Job" {
        desired := 1;
      }
      if desired > MAX_CONTROLLER_PODS {
        desired := MAX_CONTROLLER_PODS;
      }
      if desired < 0 {
        return;
      }
      hide SyncPods, WorkloadPodNames;
      SyncOwnedPods(name, WorkloadPodNames(kind, name, desired, nodeCount), Pod([OwnerRef(apiVersion, kind, name, true)], w.template, 0), puts);
    }

    method MaterializeDeployment(name: string, replicas: int, template: string, puts: Puts)
      modifies this`pods, this`sets, this`deployments
      ensures View() == ControllerModel.MaterializeDeployment(old(View()), name, replicas, template, puts)
    {
      hide SyncPods, ReplicaPodNames, TemplateHash, Retire, SeenSets;
      var desired := replicas;
      if desired > MAX_CONTROLLER_PODS {
        desired := MAX_CONTROLLER_PODS;
      }
      if desired < 0 {
        return;
      }
      var rsName := SetName(name, template);
      if rsName !in sets {
        if rsName in puts.sets {
          return;
        }
        sets := sets[rsName := NewSet(name, desired, template, puts.setSize(rsName))];
      } else if sets[rsName].replicas != desired && rsName !in puts.sets {
        sets := sets[rsName := sets[rsName].(replicas := desired, status := Counts(desired, desired, desired), size := puts.setSize(rsName))];
      }
      assert sets == CurrentSet(old(View()), name, rsName, desired, template, puts);
      SyncOwnedPods(rsName, ReplicaPodNames(rsName, desired), SetPod(rsName, template), puts);
      var older := DeploymentReplicaSets(name);
      RetireOldSets(older, rsName, puts);
      SyncDeploymentStatus(name, desired, puts.status);
    }

    method RetireOldSets(older: seq<string>, rsName: string, puts: Puts)
      requires forall n :: n in older ==> n in sets
      modifies this`pods, this`sets
      ensures View() == Retire(old(View()), older, rsName, puts)
    {
      ghost var start := View();
      for i := 0 to |older|
        invariant Retire(start, older, rsName, puts) == Retire(View(), older[i..], rsName, puts)
        invariant sets.Keys == start.sets.Keys
      {
        var oldName := older[i];
        assert older[i..][0] == oldName && older[i..][1..] == older[i + 1..];
        if oldName == rsName {
          continue;
        }
        RetireSet(oldName, puts);
      }
    }

    method RetireSet(oldName: string, puts: Puts)
      requires oldName in sets
      modifies this`pods, this`sets
      ensures View() == RetireOne(old(View()), oldName, puts)
      ensures sets.Keys == old(sets.Keys)
    {
      hide SeenPods;
      if sets[oldName].replicas != 0 && oldName !in puts.sets {
        sets := sets[oldName := sets[oldName].(replicas := 0, status := Counts(0, 0, 0), size := puts.setSize(oldName))];
      }
      assert sets == RetireOne(old(View()), oldName, puts).sets;
      var reaped := OwnedPodNames(oldName);
      DeletePods(reaped);
    }

    method SyncDeploymentStatus(name: string, desired: int, refused: bool)
      modifies this`deployments
      ensures View() == SyncStatus(old(View()), name, desired, refused)
    {
      if name in deployments && !refused {
        deployments := deployments[name := deployments[name].(status := Counts(desired, desired, desired), updated := desired)];
      }
    }

    method ReapOwnedPods(name: string)
      modifies this`pods, this`sets
      ensures View() == ControllerModel.ReapOwnedPods(old(View()), name)
    {
      hide SeenPods, SeenSets;
      var mine := OwnedPodNames(name);
      DeletePods(mine);
      var names := DeploymentReplicaSets(name);
      ghost var start := View();
      for i := 0 to |names|
        invariant ReapSets(start, names) == ReapSets(View(), names[i..])
      {
        assert names[i..][0] == names[i] && names[i..][1..] == names[i + 1..];
        var reaped := OwnedPodNames(names[i]);
        DeletePods(reaped);
        sets := sets - {names[i]};
      }
    }

    /** DELETE of a Deployment and the cascade that follows. */
    method DeleteDeployment(name: string) returns (found: bool)
      modifies this`pods, this`sets, this`deployments, this`workloads
      ensures found == (name in old(deployments))
      ensures View() == if found then ControllerModel.DeleteDeployment(old(View()), name) else old(View())
    {
      hide ControllerModel.ReapOwnedPods;
      found := DeleteWorkload("Deployment", name);
    }

    /** The kinds are those of apps/v1 and batch/v1 that run pods. */
    method DeleteWorkload(kind: string, name: string) returns (found: bool)
      modifies this`pods, this`sets, this`deployments, this`workloads
      ensures found == Exists(old(View()), kind, name)
      ensures View() == if found then ControllerModel.DeleteWorkload(old(View()), kind, name) else old(View())
    {
      hide ControllerModel.ReapOwnedPods;
      found := Exists(View(), kind, name);
      if found {
        if kind == "Deployment" {
          deployments := deployments - {name};
        } else if kind == "ReplicaSet" {
          sets := sets - {name};
        } else {
          workloads := workloads - {WorkloadKey(kind, name)};
        }
        ReapOwnedPods(name);
      }
    }

    method RespawnDeletedPod(pod: Pod, puts: Puts)
      modifies this`pods, this`sets, this`deployments
      ensures View() == Respawn(old(View()), pod, puts)
    {
      hide ControllerModel.MaterializePods, ControllerModel.MaterializeDeployment;
      match ControllerOf(pod.owners) {
        case Nobody =>
        case Controller(ref) =>
          if ref.name == "" {
            return;
          }
          if ref.kind == "ReplicaSet" {
            if ref.name !in sets {
              return;
            }
            var rs := sets[ref.name];
            match LiveDeployment(View(), rs.owners) {
              case Controller(owner) =>
                MaterializeDeployment(owner.name, deployments[owner.name].replicas, deployments[owner.name].template, puts);
              case Nobody =>
                MaterializePods(ref.apiVersion, "ReplicaSet", ref.name, Workload(rs.replicas, rs.template), puts);
            }
            return;
          }
          if !ServedKind(ref.apiVersion, ref.kind) {
            return;
          }
          if ref.kind == "Deployment" {
            if ref.name in deployments {
              MaterializeDeployment(ref.name, deployments[ref.name].replicas, deployments[ref.name].template, puts);
            }
          } else if WorkloadKey(ref.kind, ref.name) in workloads {
            MaterializePods(ref.apiVersion, ref.kind, ref.name, workloads[WorkloadKey(ref.kind, ref.name)], puts);
          }
      }
    }

    /** DELETE of a pod. */
    method DeletePod(podName: string, puts: Puts) returns (found: bool)
      modifies this`pods, this`sets, this`deployments
      ensures found == (podName in old(pods))
      ensures View() == ControllerModel.DeletePod(old(View()), podName, puts)
    {
      hide Respawn;
      found := podName in pods;
      if found {
        var victim := pods[podName];
        pods := pods - {podName};
        RespawnDeletedPod(victim, puts);
      }
    }
  }
}
