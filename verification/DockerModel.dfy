/** The emulated Docker host as a value: its requests, its limits, and what every run keeps. */
module DockerModel {
  import opened Sums

  const MAX_CONTAINERS := 128
  const MAX_EXECS := 128
  const MAX_STORE_BYTES := 0x80_0000
  const MAX_IMAGE := 256
  const ID_LENGTH := 64
  const SHORT_ID := 12

  datatype Container = Container(id: string, name: string, state: string, image: string, size: nat)
  datatype Host = Host(containers: map<string, Container>, execs: map<string, string>, bytes: int)

  datatype Method = Get | Head | Post | Delete | Other

  /** Requests after routing; `id` is the identifier the random source yields, if it yields one. */
  datatype Id = NoId | NewId(id: string)
  datatype Request =
    | Create(image: string, size: nat, name: string, id: Id)
    | OnContainer(parts: seq<string>, verb: Method, force: bool, id: Id)
    | OnExec(parts: seq<string>, verb: Method)

  datatype Answer = Answer(host: Host, code: nat)

  // ----- names and references -----

  predicate AlphaNumeric(c: char) {
    'a' <= c <= 'z' || 'A' <= c <= 'Z' || '0' <= c <= '9'
  }

  predicate ValidName(name: string) {
    && 1 <= |name| <= 64 && AlphaNumeric(name[0])
    && forall i :: 0 <= i < |name| ==> AlphaNumeric(name[i]) || name[i] == '_' || name[i] == '.' || name[i] == '-'
  }

  predicate Refers(id: string, c: Container, name: string) {
    c.name == name || (|name| >= SHORT_ID && name <= id)
  }

  function Candidates(h: Host, name: string): set<string> {
    set id | id in h.containers && Refers(id, h.containers[id], name)
  }

  datatype Found = Nothing | This(id: string)

  /** A full identifier wins; otherwise a name or an identifier prefix must pick a single container. */
  ghost function Find(h: Host, name: string): (f: Found)
    ensures f.This? ==> f.id in h.containers
  {
    if name in h.containers then This(name)
    else if exists id :: Candidates(h, name) == {id} then
      var id :| Candidates(h, name) == {id};
      assert id in Candidates(h, name);
      This(id)
    else Nothing
  }

  predicate NameTaken(h: Host, name: string) {
    exists id :: id in h.containers && h.containers[id].name == name
  }

  // ----- the requests -----

  function NameFor(name: string, id: string): string
    requires |id| >= SHORT_ID
  {
    if name == "" then "container-" + id[..SHORT_ID] else name
  }

  ghost function HandleCreate(h: Host, r: Request): Answer
    requires r.Create? && (r.id.NewId? ==> |r.id.id| == ID_LENGTH)
  {
    if r.image == "" || |r.image| > MAX_IMAGE then Answer(h, 400)
    else if |h.containers| >= MAX_CONTAINERS || h.bytes + r.size > MAX_STORE_BYTES then Answer(h, 503)
    else if r.id.NoId? then Answer(h, 500)
    else
      var name := NameFor(r.name, r.id.id);
      if !ValidName(name) then Answer(h, 400)
      else if NameTaken(h, name) then Answer(h, 409)
      else
        var c := Container(r.id.id, name, "created", r.image, r.size);
        Answer(h.(containers := h.containers[c.id := c], bytes := h.bytes + r.size), 201)
  }

  function Removed(h: Host, id: string): Host
    requires id in h.containers
  {
    Host(h.containers - {id},
         map e | e in h.execs && h.execs[e] != id :: h.execs[e],
         h.bytes - h.containers[id].size)
  }

  function WithState(h: Host, id: string, state: string): Host
    requires id in h.containers
  {
    h.(containers := h.containers[id := h.containers[id].(state := state)])
  }

  predicate Lifecycle(action: string) {
    action == "start" || action == "stop" || action == "restart" || action == "kill"
  }

  function StateAfter(action: string): string {
    if action == "stop" || action == "kill" then "exited" else "running"
  }

  ghost function HandleContainer(h: Host, r: Request): Answer
    requires r.OnContainer? && r.parts != []
  {
    match Find(h, r.parts[0])
    case Nothing => Answer(h, 404)
    case This(id) =>
      var c := h.containers[id];
      if |r.parts| == 1 && r.verb == Delete then
        if c.state == "running" && !r.force then Answer(h, 409) else Answer(Removed(h, id), 204)
      else if |r.parts| == 2 then
        if r.parts[1] == "json" && r.verb == Get then Answer(h, 200)
        else if Lifecycle(r.parts[1]) && r.verb == Post then
          var state := StateAfter(r.parts[1]);
          Answer(WithState(h, id, state), if c.state == state && r.parts[1] != "restart" then 304 else 204)
        else if r.parts[1] == "exec" && r.verb == Post then
          if c.state != "running" then Answer(h, 409)
          else if |h.execs| >= MAX_EXECS then Answer(h, 503)
          else if r.id.NoId? then Answer(h, 500)
          else Answer(h.(execs := h.execs[r.id.id := id]), 201)
        else Answer(h, 404)
      else Answer(h, 404)
  }

  ghost function HandleExec(h: Host, r: Request): Answer
    requires r.OnExec?
  {
    if |r.parts| != 2 || r.parts[0] !in h.execs then Answer(h, 404)
    else if r.parts[1] == "start" && r.verb == Post then Answer(h, 501)
    else if r.parts[1] == "json" && r.verb == Get then Answer(h, 200)
    else Answer(h, 404)
  }

  /** Identifiers have their full length, and a new container's is not in use. */
  predicate FreshId(h: Host, r: Request) {
    match r
    case Create(_, _, _, NewId(id)) => |id| == ID_LENGTH && id !in h.containers
    case OnContainer(parts, _, _, _) => parts != []
    case _ => true
  }

  ghost function Handle(h: Host, r: Request): Answer
    requires FreshId(h, r)
  {
    match r
    case Create(_, _, _, _) => HandleCreate(h, r)
    case OnContainer(_, _, _, _) => HandleContainer(h, r)
    case OnExec(_, _) => HandleExec(h, r)
  }

  // ----- what every run keeps -----

  function Sizes(containers: map<string, Container>): map<string, int> {
    map id | id in containers :: containers[id].size
  }

  /** Each container is filed under its own identifier, and no two share a name. */
  ghost predicate NamesUnique(containers: map<string, Container>) {
    && (forall id :: id in containers ==> containers[id].id == id)
    && (forall a, b :: a in containers && b in containers && containers[a].name == containers[b].name ==> a == b)
  }

  ghost predicate Accounted(h: Host) {
    h.bytes == Total(Sizes(h.containers)) && h.bytes <= MAX_STORE_BYTES
  }

  ghost predicate WithinLimits(h: Host) {
    |h.containers| <= MAX_CONTAINERS && |h.execs| <= MAX_EXECS
  }

  ghost predicate ExecsOwned(h: Host) {
    forall e :: e in h.execs ==> h.execs[e] in h.containers
  }

  ghost predicate Inv(h: Host) {
    NamesUnique(h.containers) && Accounted(h) && WithinLimits(h) && ExecsOwned(h)
  }

  /** The host as it starts: one running container. */
  function Seeded(id: string): Host {
    Host(map[id := Container(id, "web", "running", "alpine:3.20", 0)], map[], 0)
  }

  lemma SeededInv(id: string)
    ensures Inv(Seeded(id))
  {
    TotalExtract(Sizes(Seeded(id).containers), id);
    assert Sizes(Seeded(id).containers) - {id} == map[];
  }

  lemma SmallerMap<V>(some: map<string, V>, all: map<string, V>)
    requires some.Keys <= all.Keys
    ensures |some| <= |all|
  {
    assert some.Keys + (all.Keys - some.Keys) == all.Keys;
    assert |some| == |some.Keys| && |all| == |all.Keys|;
  }

  lemma InsertUnique(containers: map<string, Container>, c: Container)
    requires NamesUnique(containers) && forall id :: id in containers ==> containers[id].name != c.name
    ensures NamesUnique(containers[c.id := c])
  {
  }

  lemma InsertSizes(containers: map<string, Container>, c: Container)
    requires c.id !in containers
    ensures Total(Sizes(containers[c.id := c])) == Total(Sizes(containers)) + c.size
  {
    hide Total;
    assert Sizes(containers[c.id := c]) == Sizes(containers)[c.id := c.size];
    TotalUpdate(Sizes(containers), c.id, c.size);
  }

  lemma InsertInv(h: Host, c: Container)
    requires Inv(h) && c.id !in h.containers && !NameTaken(h, c.name)
    requires |h.containers| < MAX_CONTAINERS && h.bytes + c.size <= MAX_STORE_BYTES
    ensures Inv(h.(containers := h.containers[c.id := c], bytes := h.bytes + c.size))
  {
    hide NamesUnique, Total, Sizes;
    InsertUnique(h.containers, c);
    InsertSizes(h.containers, c);
    SizeWith(h.containers, c.id, c);
  }

  lemma CreateInv(h: Host, r: Request)
    requires Inv(h) && r.Create? && FreshId(h, r)
    ensures Inv(HandleCreate(h, r).host)
  {
    hide ValidName, NameFor, NameTaken, Inv;
    if HandleCreate(h, r).code == 201 {
      InsertInv(h, Container(r.id.id, NameFor(r.name, r.id.id), "created", r.image, r.size));
    }
  }

  lemma RemoveSizes(containers: map<string, Container>, id: string)
    requires id in containers
    ensures Total(Sizes(containers - {id})) == Total(Sizes(containers)) - containers[id].size
  {
    hide Total;
    assert Sizes(containers - {id}) == Sizes(containers) - {id};
    TotalRemove(Sizes(containers), id);
  }

  lemma RemoveUnique(containers: map<string, Container>, id: string)
    requires NamesUnique(containers)
    ensures NamesUnique(containers - {id})
  {
  }

  lemma RemovedInv(h: Host, id: string)
    requires Inv(h) && id in h.containers
    ensures Inv(Removed(h, id))
  {
    hide NamesUnique, Total, Sizes;
    var r := Removed(h, id);
    RemoveSizes(h.containers, id);
    RemoveUnique(h.containers, id);
    SmallerMap(r.containers, h.containers);
    SmallerMap(r.execs, h.execs);
  }

  lemma ExecInv(h: Host, e: string, id: string)
    requires Inv(h) && id in h.containers && |h.execs| < MAX_EXECS
    ensures Inv(h.(execs := h.execs[e := id]))
  {
    hide Total, Sizes;
    SizeWith(h.execs, e, id);
  }

  lemma StateKeepsNames(containers: map<string, Container>, id: string, state: string)
    requires NamesUnique(containers) && id in containers
    ensures NamesUnique(containers[id := containers[id].(state := state)])
    ensures Sizes(containers[id := containers[id].(state := state)]) == Sizes(containers)
  {
  }

  lemma WithStateInv(h: Host, id: string, state: string)
    requires Inv(h) && id in h.containers
    ensures Inv(WithState(h, id, state))
  {
    hide NamesUnique, Total, Sizes;
    StateKeepsNames(h.containers, id, state);
    SizeWith(h.containers, id, WithState(h, id, state).containers[id]);
  }

  lemma ContainerInv(h: Host, r: Request)
    requires Inv(h) && r.OnContainer? && r.parts != []
    ensures Inv(HandleContainer(h, r).host)
  {
    hide Find, Removed, WithState, Inv;
    var found := Find(h, r.parts[0]);
    if found.This? {
      RemovedInv(h, found.id);
      if |r.parts| == 2 {
        WithStateInv(h, found.id, StateAfter(r.parts[1]));
      }
      if r.id.NewId? && |h.execs| < MAX_EXECS {
        ExecInv(h, r.id.id, found.id);
      }
    }
  }

  lemma StepInv(h: Host, r: Request)
    requires Inv(h) && FreshId(h, r)
    ensures Inv(Handle(h, r).host)
  {
    hide Inv, HandleCreate, HandleContainer;
    match r
    case Create(_, _, _, _) => CreateInv(h, r);
    case OnContainer(_, _, _, _) => ContainerInv(h, r);
    case OnExec(_, _) =>
  }

  /** The host after a run of requests, each with a fresh identifier when it is handled. */
  ghost predicate FreshRun(h: Host, requests: seq<Request>)
    decreases |requests|
  {
    requests != [] ==> FreshId(h, requests[0]) && FreshRun(Handle(h, requests[0]).host, requests[1..])
  }

  ghost function Run(h: Host, requests: seq<Request>): Host
    requires FreshRun(h, requests)
    decreases |requests|
  {
    if requests == [] then h else Run(Handle(h, requests[0]).host, requests[1..])
  }

  /** Unique names, exact byte accounting, all limits and live exec owners, over every run. */
  lemma {:induction false} RunInv(h: Host, requests: seq<Request>)
    requires Inv(h) && FreshRun(h, requests)
    ensures Inv(Run(h, requests))
    decreases |requests|
  {
    hide Inv, Handle;
    if requests != [] {
      StepInv(h, requests[0]);
      RunInv(Handle(h, requests[0]).host, requests[1..]);
    }
  }

  /** So they hold whatever is asked of a host since it started. */
  lemma HostRunInv(id: string, requests: seq<Request>)
    requires FreshRun(Seeded(id), requests)
    ensures Inv(Run(Seeded(id), requests))
  {
    hide Inv, FreshRun, Seeded;
    SeededInv(id);
    RunInv(Seeded(id), requests);
  }

  // ----- what each request comes to -----

  /** Of all containers only `id` has that name, or that prefix of 12 or more characters. */
  ghost predicate OnlyFit(h: Host, name: string, id: string) {
    forall other :: other in h.containers ==>
      ((h.containers[other].name == name || (|name| >= 12 && name <= other)) <==> other == id)
  }

  /** A reference, word by word: a full identifier wins; otherwise the only container it fits. */
  lemma FindExactly(h: Host, name: string, id: string)
    ensures Find(h, name) == This(id) <==> id in h.containers && (name == id || (name !in h.containers && OnlyFit(h, name, id)))
  {
    FindDecides(h, name, id);
    hide Find, OnlyFit;
    if id in h.containers && name !in h.containers {
      OnlyCandidate(h, name, id);
    }
  }

  lemma OnlyCandidate(h: Host, name: string, id: string)
    requires id in h.containers
    ensures Candidates(h, name) == {id} <==> OnlyFit(h, name, id)
  {
    if Candidates(h, name) == {id} {
      forall other | other in h.containers ensures Refers(other, h.containers[other], name) <==> other == id {
        assert other in Candidates(h, name) <==> other in {id};
      }
    }
    if OnlyFit(h, name, id) {
      assert Candidates(h, name) == {id};
    }
  }

  /** When a container is made, and what; every other answer leaves the host as it was. */
  lemma CreateExactly(h: Host, r: Request)
    requires r.Create? && (r.id.NewId? ==> |r.id.id| == ID_LENGTH)
    ensures var a := HandleCreate(h, r);
      && (a.code == 201 <==>
            && 1 <= |r.image| <= 256 && |h.containers| < 128 && h.bytes + r.size <= 8388608 && r.id.NewId?
            && ValidName(NameFor(r.name, r.id.id))
            && forall other :: other in h.containers ==> h.containers[other].name != NameFor(r.name, r.id.id))
      && (a.code == 201 ==> a.host == Host(
            h.containers[r.id.id := Container(r.id.id, NameFor(r.name, r.id.id), "created", r.image, r.size)], h.execs, h.bytes + r.size))
      && (a.code != 201 ==> a.host == h && (a.code == 400 || a.code == 409 || a.code == 500 || a.code == 503))
      && (a.code == 503 <==> 1 <= |r.image| <= 256 && (|h.containers| >= 128 || h.bytes + r.size > 8388608))
  {
    hide ValidName, NameFor;
  }

  /** An unnamed container is named after the first 12 characters of its identifier. */
  lemma NamedAfter(name: string, id: string)
    requires |id| >= SHORT_ID
    ensures NameFor(name, id) == if name != "" then name else "container-" + id[..12]
  {
  }

  /**
   * A deletion without force is refused, and changes nothing, exactly when the container is
   * running; every other deletion of a container that is found takes it, its bytes and its execs.
   */
  lemma DeleteExactly(h: Host, r: Request)
    requires r.OnContainer? && |r.parts| == 1 && r.verb == Delete
    ensures var a := HandleContainer(h, r);
      match Find(h, r.parts[0])
      case Nothing => a == Answer(h, 404)
      case This(id) =>
        if h.containers[id].state == "running" && !r.force then a == Answer(h, 409)
        else
          && a.code == 204 && a.host.containers == h.containers - {id} && a.host.bytes == h.bytes - h.containers[id].size
          && forall e :: (e in a.host.execs <==> e in h.execs && h.execs[e] != id) && (e in a.host.execs ==> a.host.execs[e] == h.execs[e])
  {
    hide Find;
  }

  /** start and restart leave the container running, stop and kill exited; nothing else of the host changes. */
  lemma LifecycleExactly(h: Host, r: Request, id: string)
    requires r.OnContainer? && |r.parts| == 2 && r.verb == Post && Find(h, r.parts[0]) == This(id)
    requires r.parts[1] == "start" || r.parts[1] == "restart" || r.parts[1] == "stop" || r.parts[1] == "kill"
    ensures var a := HandleContainer(h, r);
      var state := if r.parts[1] == "start" || r.parts[1] == "restart" then "running" else "exited";
      && a.host.containers == h.containers[id := h.containers[id].(state := state)]
      && a.host.execs == h.execs && a.host.bytes == h.bytes
      && (a.code == 304 <==> h.containers[id].state == state && r.parts[1] != "restart")
      && (a.code != 304 ==> a.code == 204)
  {
    hide Find;
  }

  /** An exec needs a running container, one of 128 places and an identifier; it then belongs to that container. */
  lemma ExecExactly(h: Host, r: Request, id: string)
    requires r.OnContainer? && |r.parts| == 2 && r.verb == Post && r.parts[1] == "exec" && Find(h, r.parts[0]) == This(id)
    ensures var a := HandleContainer(h, r);
      if h.containers[id].state != "running" then a == Answer(h, 409)
      else if |h.execs| >= 128 then a == Answer(h, 503)
      else if r.id.NoId? then a == Answer(h, 500)
      else a == Answer(Host(h.containers, h.execs[r.id.id := id], h.bytes), 201)
  {
    hide Find;
  }

  /** Everything else only reads: inspection finds the container, and any other request finds nothing. */
  lemma OthersOnlyRead(h: Host, r: Request)
    requires r.OnContainer? && r.parts != []
    requires !(|r.parts| == 1 && r.verb == Delete)
    requires !(|r.parts| == 2 && r.verb == Post && r.parts[1] in ["start", "restart", "stop", "kill", "exec"])
    ensures HandleContainer(h, r).host == h
    ensures HandleContainer(h, r).code == 200 <==> Find(h, r.parts[0]).This? && |r.parts| == 2 && r.parts[1] == "json" && r.verb == Get
    ensures HandleContainer(h, r).code == 200 || HandleContainer(h, r).code == 404
  {
    hide Find;
  }

  /** An exec can be inspected, and its start is refused; none of this changes the host. */
  lemma ExecOnlyReads(h: Host, r: Request)
    requires r.OnExec?
    ensures HandleExec(h, r).host == h
    ensures HandleExec(h, r).code == 501 <==> |r.parts| == 2 && r.parts[0] in h.execs && r.parts[1] == "start" && r.verb == Post
    ensures HandleExec(h, r).code == 200 <==> |r.parts| == 2 && r.parts[0] in h.execs && r.parts[1] == "json" && r.verb == Get
    ensures HandleExec(h, r).code in {200, 404, 501}
  {
  }

  // ----- across requests -----

  /** Creating a container and deleting it by its identifier restores the host, execs and bytes included. */
  lemma CreateThenDelete(h: Host, r: Request, force: bool)
    requires Inv(h) && r.Create? && FreshId(h, r) && HandleCreate(h, r).code == 201
    ensures var after := HandleCreate(h, r).host;
      HandleContainer(after, OnContainer([r.id.id], Delete, force, NoId)) == Answer(h, 204)
  {
    hide ValidName, NameTaken, Removed;
    var after, id := HandleCreate(h, r).host, r.id.id;
    assert Find(after, id) == This(id);
    RemoveInserted(h, after.containers[id]);
  }

  lemma RemoveInserted(h: Host, c: Container)
    requires c.id !in h.containers && forall e :: e in h.execs ==> h.execs[e] in h.containers
    ensures Removed(h.(containers := h.containers[c.id := c], bytes := h.bytes + c.size), c.id) == h
  {
    var r := Removed(h.(containers := h.containers[c.id := c], bytes := h.bytes + c.size), c.id);
    assert r.containers == h.containers;
    assert r.execs == h.execs;
  }

  /** An exec lives exactly as long as its container: deletion takes all of them and no others. */
  lemma DeletionReleases(h: Host, r: Request)
    requires r.OnContainer? && |r.parts| == 1 && r.verb == Delete && HandleContainer(h, r).code == 204
    ensures Find(h, r.parts[0]).This?
    ensures var id, after := Find(h, r.parts[0]).id, HandleContainer(h, r).host;
      && after.bytes == h.bytes - h.containers[id].size
      && after.containers == h.containers - {id}
      && (forall e :: e in after.execs <==> e in h.execs && h.execs[e] != id)
  {
    hide Find;
  }

  /** A reference resolves exactly when it is an identifier or picks one container. */
  lemma FindDecides(h: Host, name: string, id: string)
    ensures Find(h, name) == This(id) <==>
      id in h.containers && (name == id || (name !in h.containers && Candidates(h, name) == {id}))
  {
    if Candidates(h, name) == {id} {
      assert id in Candidates(h, name);
      forall other | Candidates(h, name) == {other} ensures other == id {
        assert other in {id};
      }
    }
    hide Refers, Candidates;
  }

  lemma SameReferences(h: Host, id: string, state: string, name: string)
    requires id in h.containers
    ensures Find(WithState(h, id, state), name) == Find(h, name)
  {
    assert Candidates(WithState(h, id, state), name) == Candidates(h, name);
  }

  predicate OnLifecycle(r: Request) {
    r.OnContainer? && |r.parts| == 2 && r.verb == Post && Lifecycle(r.parts[1])
  }

  /** Repeating a lifecycle request changes nothing and says so, except that restart always answers 204. */
  lemma LifecycleIdempotent(h: Host, r: Request)
    requires OnLifecycle(r) && Find(h, r.parts[0]).This?
    ensures var after := HandleContainer(h, r).host;
      HandleContainer(after, r) == Answer(after, if r.parts[1] == "restart" then 204 else 304)
  {
    var id, state := Find(h, r.parts[0]).id, StateAfter(r.parts[1]);
    SameReferences(h, id, state, r.parts[0]);
    hide Find;
    var after := HandleContainer(h, r).host;
    assert WithState(after, id, state).containers == after.containers;
  }

  /** After start or restart an exec is never refused for a stopped container; after stop or kill it always is. */
  lemma ExecAfterLifecycle(h: Host, r: Request, exec: Request)
    requires OnLifecycle(r) && Find(h, r.parts[0]).This?
    requires exec.OnContainer? && exec.parts == [r.parts[0], "exec"] && exec.verb == Post
    ensures HandleContainer(HandleContainer(h, r).host, exec).code == 409 <==> r.parts[1] == "stop" || r.parts[1] == "kill"
    ensures HandleContainer(HandleContainer(h, r).host, exec).code == 201 ==>
      HandleContainer(HandleContainer(h, r).host, exec).host.execs[exec.id.id] == Find(h, r.parts[0]).id
  {
    SameReferences(h, Find(h, r.parts[0]).id, StateAfter(r.parts[1]), r.parts[0]);
    hide Find;
  }
}
