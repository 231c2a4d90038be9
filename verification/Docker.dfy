/** The emulated Docker host as the handler mutates it. */
module Docker {
  import opened DockerModel

  class Sensor {
    var containers: map<string, Container>
    var execs: map<string, string>
    var bytes: int

    function View(): Host
      reads this
    {
      Host(containers, execs, bytes)
    }

    constructor (id: string)
      ensures View() == Seeded(id)
    {
      containers := map[id := Container(id, "web", "running", "alpine:3.20", 0)];
      execs := map[];
      bytes := 0;
    }

    /** Looks through the containers in whatever order the map yields them; a second match ends the search. */
    method Lookup(name: string) returns (found: Found)
      ensures found == Find(View(), name)
    {
      hide Refers;
      if name in containers {
        return This(name);
      }
      var matched := Nothing;
      var pending := containers.Keys;
      while pending != {}
        invariant pending <= containers.Keys
        invariant matched.Nothing? ==> Candidates(View(), name) <= pending
        invariant matched.This? ==> matched.id !in pending && matched.id in Candidates(View(), name)
        invariant matched.This? ==> Candidates(View(), name) <= pending + {matched.id}
        decreases pending
      {
        var id :| id in pending;
        pending := pending - {id};
        if Refers(id, containers[id], name) {
          if matched.This? {
            assert id in Candidates(View(), name) && matched.id in Candidates(View(), name) && id != matched.id;
            TwoCandidates(View(), name, id, matched.id);
            return Nothing;
          }
          matched := This(id);
        }
      }
      if matched.This? {
        assert Candidates(View(), name) == {matched.id};
        FindDecides(View(), name, matched.id);
      } else {
        assert Candidates(View(), name) == {};
      }
      found := matched;
    }

    method FindName(name: string) returns (taken: bool)
      ensures taken == NameTaken(View(), name)
    {
      var pending := containers.Keys;
      while pending != {}
        invariant pending <= containers.Keys
        invariant forall id :: id in containers && id !in pending ==> containers[id].name != name
        decreases pending
      {
        var id :| id in pending;
        pending := pending - {id};
        if containers[id].name == name {
          return true;
        }
      }
      return false;
    }

    method CreateContainer(r: Request) returns (code: nat)
      requires r.Create? && (r.id.NewId? ==> |r.id.id| == ID_LENGTH)
      modifies this
      ensures Answer(View(), code) == HandleCreate(old(View()), r)
    {
      if r.image == "" || |r.image| > MAX_IMAGE {
        return 400;
      }
      if |containers| >= MAX_CONTAINERS || bytes + r.size > MAX_STORE_BYTES {
        return 503;
      }
      if r.id.NoId? {
        return 500;
      }
      var name := r.name;
      if name == "" {
        name := "container-" + r.id.id[..SHORT_ID];
      }
      if !ValidName(name) {
        return 400;
      }
      var taken := FindName(name);
      if taken {
        return 409;
      }
      containers := containers[r.id.id := Container(r.id.id, name, "created", r.image, r.size)];
      bytes := bytes + r.size;
      code := 201;
    }

    /** Frees a container: its record, its bytes, and every exec it owns. */
    method Release(id: string)
      requires id in containers
      modifies this
      ensures View() == Removed(old(View()), id)
    {
      var size := containers[id].size;
      containers := containers - {id};
      bytes := bytes - size;
      var pending := execs.Keys;
      while pending != {}
        invariant containers == old(containers) - {id} && bytes == old(bytes) - size
        invariant pending <= old(execs).Keys
        invariant execs == map e | e in old(execs) && (e in pending || old(execs)[e] != id) :: old(execs)[e]
        decreases pending
      {
        var e :| e in pending;
        pending := pending - {e};
        if execs[e] == id {
          execs := execs - {e};
        }
      }
    }

    method OnContainerRequest(r: Request) returns (code: nat)
      requires r.OnContainer? && r.parts != []
      modifies this
      ensures Answer(View(), code) == HandleContainer(old(View()), r)
    {
      hide Find, Removed;
      var found := Lookup(r.parts[0]);
      if found.Nothing? {
        return 404;
      }
      var id := found.id;
      var c := containers[id];
      if |r.parts| == 1 && r.verb == Delete {
        if c.state == "running" && !r.force {
          return 409;
        }
        Release(id);
        return 204;
      }
      if |r.parts| != 2 {
        return 404;
      }
      if r.parts[1] == "json" && r.verb == Get {
        return 200;
      }
      if Lifecycle(r.parts[1]) && r.verb == Post {
        var state := "running";
        if r.parts[1] == "stop" || r.parts[1] == "kill" {
          state := "exited";
        }
        code := 204;
        if c.state == state && r.parts[1] != "restart" {
          code := 304;
        }
        containers := containers[id := c.(state := state)];
        return;
      }
      if r.parts[1] == "exec" && r.verb == Post {
        if c.state != "running" {
          return 409;
        }
        if |execs| >= MAX_EXECS {
          return 503;
        }
        if r.id.NoId? {
          return 500;
        }
        execs := execs[r.id.id := id];
        return 201;
      }
      code := 404;
    }
  }

  lemma TwoCandidates(h: Host, name: string, a: string, b: string)
    requires name !in h.containers && a in Candidates(h, name) && b in Candidates(h, name) && a != b
    ensures Find(h, name) == Nothing
  {
    hide Refers, Candidates;
    forall id ensures Candidates(h, name) != {id} {
      assert a !in {id} || b !in {id};
    }
  }
}
