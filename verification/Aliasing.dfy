/**
 * Maps and slices as they are in memory: shared by reference and written in place.
 * The rest of the model treats objects as values; this module shows why it may, whatever
 * callers do to the maps they hold.
 */
module Aliasing {
  import opened Sums
  import opened Json
  import opened StoreModel

  type Address = nat
  datatype Value = Scalar(j: Json) | Ref(at: Address)
  datatype Node = Members(m: map<string, Value>) | Items(xs: seq<Value>) | Strings(t: map<string, string>)
  type Heap = seq<Node>

  predicate PointsTo(node: Node, r: Address) {
    match node
    case Members(m) => exists k :: k in m && m[k] == Ref(r)
    case Items(xs) => exists i :: 0 <= i < |xs| && xs[i] == Ref(r)
    case Strings(_) => false
  }

  predicate Edge(heap: Heap, a: Address, r: Address) {
    a < |heap| && PointsTo(heap[a], r)
  }

  /** The JSON value a reference stands for; a cyclic structure stands for none. */
  ghost predicate Denotes(heap: Heap, v: Value, j: Json)
    decreases j
  {
    match v
    case Scalar(x) => x == j && !j.Obj? && !j.Arr? && !j.Texts?
    case Ref(a) =>
      a < |heap| &&
      match heap[a] {
        case Members(m) =>
          j.Obj? && m.Keys == j.members.Keys && forall k :: k in m ==> Denotes(heap, m[k], j.members[k])
        case Items(xs) =>
          j.Arr? && |xs| == |j.items| && forall i :: 0 <= i < |xs| ==> Denotes(heap, xs[i], j.items[i])
        case Strings(t) => j == Texts(t)
      }
  }

  lemma {:induction false} DenotesOne(heap: Heap, v: Value, i: Json, j: Json)
    requires Denotes(heap, v, i) && Denotes(heap, v, j)
    ensures i == j
    decreases i
  {
    if v.Ref? {
      match heap[v.at]
      case Members(m) =>
        forall k | k in m ensures i.members[k] == j.members[k] {
          DenotesOne(heap, m[k], i.members[k], j.members[k]);
        }
      case Items(xs) =>
        forall n | 0 <= n < |xs| ensures i.items[n] == j.items[n] {
          DenotesOne(heap, xs[n], i.items[n], j.items[n]);
        }
      case Strings(_) =>
    }
  }

  // ----- ownership -----

  /** Who may hold a node: the store, some caller, or one event waiting in a channel. */
  datatype Owner = InStore | Outside | InFlight(event: Address)

  ghost predicate Closed(heap: Heap, owner: seq<Owner>) {
    && |owner| == |heap|
    && forall a: Address, r: Address :: Edge(heap, a, r) ==> r < |heap| && owner[r] == owner[a]
  }

  /** Two heaps that agree on everything one owner has. */
  ghost predicate Agree(heap: Heap, later: Heap, owner: seq<Owner>, o: Owner)
    requires |owner| == |heap|
  {
    forall a :: 0 <= a < |heap| && owner[a] == o ==> a < |later| && later[a] == heap[a]
  }

  /** A value does not change while the nodes of its owner do not. */
  lemma {:induction false} DenotesFrame(heap: Heap, later: Heap, owner: seq<Owner>, o: Owner, v: Value, j: Json)
    requires Closed(heap, owner) && Agree(heap, later, owner, o)
    requires v.Ref? ==> v.at < |heap| && owner[v.at] == o
    requires Denotes(heap, v, j)
    ensures Denotes(later, v, j)
    decreases j
  {
    if v.Ref? {
      match heap[v.at]
      case Members(m) =>
        forall k | k in m ensures Denotes(later, m[k], j.members[k]) {
          assert m[k].Ref? ==> Edge(heap, v.at, m[k].at);
          DenotesFrame(heap, later, owner, o, m[k], j.members[k]);
        }
      case Items(xs) =>
        forall n | 0 <= n < |xs| ensures Denotes(later, xs[n], j.items[n]) {
          assert xs[n].Ref? ==> Edge(heap, v.at, xs[n].at);
          DenotesFrame(heap, later, owner, o, xs[n], j.items[n]);
        }
      case Strings(_) =>
    }
  }

  // ----- decoding allocates -----

  ghost function Alloc(heap: Heap, j: Json): (r: (Heap, Value))
    ensures j.Obj? ==> r.1.Ref?
    decreases j, 1
  {
    match j
    case Obj(m) =>
      var (h, vs) := AllocMembers(heap, j, m.Keys);
      (h + [Members(vs)], Ref(|h|))
    case Arr(xs) =>
      var (h, vs) := AllocItems(heap, xs);
      (h + [Items(vs)], Ref(|h|))
    case Texts(t) => (heap + [Strings(t)], Ref(|heap|))
    case _ => (heap, Scalar(j))
  }

  ghost function AllocItems(heap: Heap, xs: seq<Json>): (Heap, seq<Value>)
    decreases xs
  {
    if xs == [] then (heap, [])
    else
      var (h, vs) := AllocItems(heap, xs[..|xs| - 1]);
      var (h2, v) := Alloc(h, xs[|xs| - 1]);
      (h2, vs + [v])
  }

  ghost function AllocMembers(heap: Heap, j: Json, pending: set<string>): (Heap, map<string, Value>)
    requires j.Obj? && pending <= j.members.Keys
    decreases j, 0, pending
  {
    if pending == {} then (heap, map[])
    else
      var k := Pick(pending);
      var (h, vs) := AllocMembers(heap, j, pending - {k});
      var (h2, v) := Alloc(h, j.members[k]);
      (h2, vs[k := v])
  }

  /** The nodes added to a heap point at one another only. */
  ghost predicate Grown(heap: Heap, later: Heap) {
    && heap <= later
    && forall a: Address, r: Address :: |heap| <= a && Edge(later, a, r) ==> |heap| <= r < |later|
  }

  ghost predicate NewValue(heap: Heap, later: Heap, v: Value) {
    v.Ref? ==> |heap| <= v.at < |later|
  }

  lemma GrownTwice(a: Heap, b: Heap, c: Heap)
    requires Grown(a, b) && Grown(b, c)
    ensures Grown(a, c)
  {
    forall x: Address, r: Address | |a| <= x && Edge(c, x, r) ensures |a| <= r < |c| {
      if x < |b| {
        assert Edge(b, x, r);
      }
    }
  }

  lemma {:induction false} DenotesGrows(heap: Heap, later: Heap, v: Value, j: Json)
    requires heap <= later && Denotes(heap, v, j)
    ensures Denotes(later, v, j)
    decreases j
  {
    if v.Ref? {
      match heap[v.at]
      case Members(m) =>
        forall k | k in m ensures Denotes(later, m[k], j.members[k]) {
          DenotesGrows(heap, later, m[k], j.members[k]);
        }
      case Items(xs) =>
        forall n | 0 <= n < |xs| ensures Denotes(later, xs[n], j.items[n]) {
          DenotesGrows(heap, later, xs[n], j.items[n]);
        }
      case Strings(_) =>
    }
  }

  /** Decoding gives the value back on new nodes only. */
  lemma {:induction false} AllocSound(heap: Heap, j: Json)
    ensures var (later, v) := Alloc(heap, j); Grown(heap, later) && NewValue(heap, later, v) && Denotes(later, v, j)
    decreases j, 1
  {
    match j
    case Obj(m) =>
      AllocMembersSound(heap, j, m.Keys);
      var (h, vs) := AllocMembers(heap, j, m.Keys);
      NewNode(heap, h, Members(vs));
      forall k | k in vs ensures Denotes(h + [Members(vs)], vs[k], m[k]) {
        DenotesGrows(h, h + [Members(vs)], vs[k], m[k]);
      }
    case Arr(xs) =>
      AllocItemsSound(heap, xs);
      var (h, vs) := AllocItems(heap, xs);
      NewNode(heap, h, Items(vs));
      forall n | 0 <= n < |xs| ensures Denotes(h + [Items(vs)], vs[n], xs[n]) {
        DenotesGrows(h, h + [Items(vs)], vs[n], xs[n]);
      }
    case Texts(t) => NewNode(heap, heap, Strings(t));
    case _ =>
  }

  lemma NewNode(heap: Heap, h: Heap, node: Node)
    requires Grown(heap, h) && forall r: Address :: PointsTo(node, r) ==> |heap| <= r < |h|
    ensures Grown(heap, h + [node])
  {
    var later := h + [node];
    forall a: Address, r: Address | |heap| <= a && Edge(later, a, r) ensures |heap| <= r < |later| {
      assert a < |h| ==> Edge(h, a, r);
    }
  }

  lemma {:induction false} AllocItemsSound(heap: Heap, xs: seq<Json>)
    ensures var (later, vs) := AllocItems(heap, xs);
      Grown(heap, later) && |vs| == |xs| && forall n :: 0 <= n < |xs| ==> NewValue(heap, later, vs[n]) && Denotes(later, vs[n], xs[n])
    decreases xs
  {
    if xs != [] {
      var init, x := xs[..|xs| - 1], xs[|xs| - 1];
      AllocItemsSound(heap, init);
      var (h, vs) := AllocItems(heap, init);
      AllocSound(h, x);
      var (h2, v) := Alloc(h, x);
      GrownTwice(heap, h, h2);
      forall n | 0 <= n < |init| ensures Denotes(h2, vs[n], xs[n]) {
        DenotesGrows(h, h2, vs[n], init[n]);
      }
    }
  }

  lemma {:induction false} AllocMembersSound(heap: Heap, j: Json, pending: set<string>)
    requires j.Obj? && pending <= j.members.Keys
    ensures var (later, vs) := AllocMembers(heap, j, pending);
      Grown(heap, later) && vs.Keys == pending
      && forall k :: k in vs ==> NewValue(heap, later, vs[k]) && Denotes(later, vs[k], j.members[k])
    decreases j, 0, pending
  {
    if pending != {} {
      var k := Pick(pending);
      AllocMembersSound(heap, j, pending - {k});
      var (h, vs) := AllocMembers(heap, j, pending - {k});
      AllocSound(h, j.members[k]);
      var (h2, v) := Alloc(h, j.members[k]);
      GrownTwice(heap, h, h2);
      forall n | n in vs ensures Denotes(h2, vs[n], j.members[n]) {
        DenotesGrows(h, h2, vs[n], j.members[n]);
      }
    }
  }

  // ----- the store's maps, the waiting events and the callers' maps on one heap -----

  datatype State = State(
    heap: Heap,
    stored: map<ObjectKey, Address>,
    queues: map<nat, seq<Address>>,
    held: set<Address>)

  /** The same store and channels with objects as values. */
  datatype Contents = Contents(objects: map<ObjectKey, Object>, queued: map<nat, seq<Object>>)

  datatype Op =
    | Decode(j: Json)                       // a request body becomes maps of the caller's
    | Write(at: Address, node: Node)        // the caller changes one of its maps or slices
    | Insert(key: ObjectKey, root: Address) // put keeps a copy of a caller's object
    | Get(key: ObjectKey)                   // get, list and delete hand out copies
    | Remove(key: ObjectKey)
    | Subscribe(id: nat)
    | Deliver(id: nat, key: ObjectKey)      // publishLocked sends a copy
    | Receive(id: nat)                      // a watch takes over the oldest event

  ghost predicate Path(heap: Heap, path: seq<Address>) {
    && path != []
    && forall i, j :: 0 <= i < j < |path| && j == i + 1 ==> Edge(heap, path[i], path[j])
  }

  ghost predicate Reaches(heap: Heap, from: set<Address>, a: Address) {
    exists path :: Path(heap, path) && path[0] in from && path[|path| - 1] == a
  }

  /** A caller can write where its references lead, and can only write references it has. */
  ghost predicate MayWrite(s: State, at: Address, node: Node) {
    && at < |s.heap| && Reaches(s.heap, s.held, at)
    && forall r: Address :: PointsTo(node, r) ==> Reaches(s.heap, s.held, r)
  }

  ghost predicate HasObject(heap: Heap, a: Address) {
    exists o: Object :: Denotes(heap, Ref(a), Obj(o))
  }

  ghost function ObjectAt(heap: Heap, a: Address): (o: Object)
    requires HasObject(heap, a)
    ensures Denotes(heap, Ref(a), Obj(o))
  {
    var o: Object :| Denotes(heap, Ref(a), Obj(o));
    o
  }

  /** cloneObject of the object at `a`: encode what is there, decode it onto new nodes. */
  ghost function Copy(heap: Heap, a: Address): (Heap, Address)
    requires HasObject(heap, a)
  {
    var (later, v) := Alloc(heap, Obj(CloneObject(ObjectAt(heap, a))));
    (later, v.at)
  }

  ghost predicate CanInsert(s: State, root: Address) {
    Reaches(s.heap, s.held, root) && HasObject(s.heap, root)
  }

  ghost predicate CanCopy(s: State, key: ObjectKey) {
    key in s.stored && HasObject(s.heap, s.stored[key])
  }

  ghost function Step(s: State, op: Op): State {
    match op
    case Decode(j) =>
      var (later, v) := Alloc(s.heap, j);
      s.(heap := later, held := s.held + (if v.Ref? then {v.at} else {}))
    case Write(at, node) =>
      if MayWrite(s, at, node) then s.(heap := s.heap[at := node]) else s
    case Insert(key, root) =>
      if !CanInsert(s, root) then s
      else
        var (later, a) := Copy(s.heap, root);
        s.(heap := later, stored := s.stored[key := a])
    case Get(key) =>
      if !CanCopy(s, key) then s
      else
        var (later, a) := Copy(s.heap, s.stored[key]);
        s.(heap := later, held := s.held + {a})
    case Remove(key) => s.(stored := s.stored - {key})
    case Subscribe(id) => if id in s.queues then s else s.(queues := s.queues[id := []])
    case Deliver(id, key) =>
      if id !in s.queues || !CanCopy(s, key) then s
      else
        var (later, a) := Copy(s.heap, s.stored[key]);
        s.(heap := later, queues := s.queues[id := s.queues[id] + [a]])
    case Receive(id) =>
      if id !in s.queues || s.queues[id] == [] then s
      else s.(queues := s.queues[id := s.queues[id][1..]], held := s.held + {s.queues[id][0]})
  }

  /** What the step means for a store of values; callers' own steps mean nothing to it. */
  ghost function Effect(s: State, c: Contents, op: Op): Contents {
    match op
    case Insert(key, root) =>
      if CanInsert(s, root) then c.(objects := c.objects[key := CloneObject(ObjectAt(s.heap, root))]) else c
    case Remove(key) => c.(objects := c.objects - {key})
    case Subscribe(id) => if id in c.queued then c else c.(queued := c.queued[id := []])
    case Deliver(id, key) =>
      if id in c.queued && key in c.objects then c.(queued := c.queued[id := c.queued[id] + [CloneObject(c.objects[key])]]) else c
    case Receive(id) =>
      if id in c.queued && c.queued[id] != [] then c.(queued := c.queued[id := c.queued[id][1..]]) else c
    case _ => c
  }

  // ----- separation -----

  ghost predicate RootsOwned(s: State, owner: seq<Owner>) {
    && (forall k :: k in s.stored ==> s.stored[k] < |owner| && owner[s.stored[k]] == InStore)
    && (forall a :: a in s.held ==> a < |owner| && owner[a] == Outside)
  }

  ghost predicate EventsOwned(s: State, owner: seq<Owner>) {
    forall id, i :: id in s.queues && 0 <= i < |s.queues[id]| ==>
      s.queues[id][i] < |owner| && owner[s.queues[id][i]] == InFlight(s.queues[id][i])
  }

  ghost predicate EventsDistinct(s: State) {
    forall i, j, m, n :: i in s.queues && j in s.queues && 0 <= m < |s.queues[i]| && 0 <= n < |s.queues[j]| ==>
      s.queues[i][m] == s.queues[j][n] ==> i == j && m == n
  }

  ghost predicate Separated(s: State, owner: seq<Owner>) {
    Closed(s.heap, owner) && RootsOwned(s, owner) && EventsOwned(s, owner) && EventsDistinct(s)
  }

  lemma {:induction false} PathOwned(heap: Heap, owner: seq<Owner>, path: seq<Address>)
    requires Closed(heap, owner) && Path(heap, path) && path[0] < |heap|
    ensures path[|path| - 1] < |heap| && owner[path[|path| - 1]] == owner[path[0]]
  {
    if |path| > 1 {
      var init := path[..|path| - 1];
      PathOwned(heap, owner, init);
      assert Edge(heap, path[|path| - 2], path[|path| - 1]);
    }
  }

  lemma ReachesOwned(heap: Heap, owner: seq<Owner>, from: set<Address>, o: Owner, a: Address)
    requires Closed(heap, owner) && Reaches(heap, from, a)
    requires forall r :: r in from ==> r < |heap| && owner[r] == o
    ensures a < |heap| && owner[a] == o
  {
    var path :| Path(heap, path) && path[0] in from && path[|path| - 1] == a;
    PathOwned(heap, owner, path);
  }

  function Extend(owner: seq<Owner>, size: nat, o: Owner): (r: seq<Owner>)
    requires |owner| <= size
    ensures |r| == size && owner <= r && forall a :: |owner| <= a < size ==> r[a] == o
  {
    owner + seq(size - |owner|, i => o)
  }

  lemma GrownClosed(heap: Heap, later: Heap, owner: seq<Owner>, o: Owner)
    requires Closed(heap, owner) && Grown(heap, later)
    ensures Closed(later, Extend(owner, |later|, o))
  {
    var next := Extend(owner, |later|, o);
    forall a: Address, r: Address | Edge(later, a, r) ensures r < |later| && next[r] == next[a] {
      if a < |heap| {
        assert Edge(heap, a, r);
      }
    }
  }

  lemma CopySound(heap: Heap, a: Address)
    requires HasObject(heap, a)
    ensures var (later, b) := Copy(heap, a);
      Grown(heap, later) && |heap| <= b < |later| && Denotes(later, Ref(b), Obj(CloneObject(ObjectAt(heap, a))))
  {
    hide Alloc, Denotes, Grown;
    AllocSound(heap, Obj(CloneObject(ObjectAt(heap, a))));
  }

  lemma GrownSeparated(s: State, later: Heap, owner: seq<Owner>, o: Owner)
    requires Separated(s, owner) && Grown(s.heap, later)
    ensures Separated(s.(heap := later), Extend(owner, |later|, o))
  {
    hide Edge;
    GrownClosed(s.heap, later, owner, o);
    ExtendOwned(s, later, owner, o);
  }

  lemma ExtendOwned(s: State, later: Heap, owner: seq<Owner>, o: Owner)
    requires RootsOwned(s, owner) && EventsOwned(s, owner) && |owner| <= |later|
    ensures RootsOwned(s.(heap := later), Extend(owner, |later|, o)) && EventsOwned(s.(heap := later), Extend(owner, |later|, o))
  {
  }

  lemma WriteSeparated(s: State, owner: seq<Owner>, at: Address, node: Node)
    requires Separated(s, owner) && MayWrite(s, at, node)
    ensures Separated(s.(heap := s.heap[at := node]), owner)
    ensures owner[at] == Outside
  {
    hide Reaches, PointsTo;
    ReachesOwned(s.heap, owner, s.held, Outside, at);
    var later := s.heap[at := node];
    forall a: Address, r: Address | Edge(later, a, r) ensures r < |later| && owner[r] == owner[a] {
      if a == at {
        ReachesOwned(s.heap, owner, s.held, Outside, r);
      } else {
        assert Edge(s.heap, a, r);
      }
    }
  }

  /** What a received event was made of now belongs to its receiver. */
  function HandOver(owner: seq<Owner>, event: Address): seq<Owner> {
    seq(|owner|, i requires 0 <= i < |owner| => if owner[i] == InFlight(event) then Outside else owner[i])
  }

  lemma HandOverClosed(heap: Heap, owner: seq<Owner>, event: Address)
    requires Closed(heap, owner)
    ensures Closed(heap, HandOver(owner, event))
  {
    hide PointsTo;
    var next := HandOver(owner, event);
    forall a: Address, r: Address | Edge(heap, a, r) ensures r < |heap| && next[r] == next[a] {
      assert owner[r] == owner[a];
    }
  }

  lemma HandOverRoots(s: State, owner: seq<Owner>, event: Address)
    requires RootsOwned(s, owner) && event < |owner| && owner[event] == InFlight(event)
    ensures RootsOwned(s.(held := s.held + {event}), HandOver(owner, event))
  {
  }

  lemma ReceiveSeparated(s: State, owner: seq<Owner>, id: nat)
    requires Separated(s, owner) && id in s.queues && s.queues[id] != []
    ensures Separated(Step(s, Receive(id)), HandOver(owner, s.queues[id][0]))
  {
    hide Edge;
    var event := s.queues[id][0];
    var t, next := Step(s, Receive(id)), HandOver(owner, event);
    HandOverClosed(s.heap, owner, event);
    HandOverRoots(s, owner, event);
    forall i, n | i in t.queues && 0 <= n < |t.queues[i]|
      ensures t.queues[i][n] < |next| && next[t.queues[i][n]] == InFlight(t.queues[i][n])
    {
      assert t.queues[i][n] == s.queues[i][if i == id then n + 1 else n];
    }
    TailDistinct(s, id);
  }

  lemma TailDistinct(s: State, id: nat)
    requires EventsDistinct(s) && id in s.queues && s.queues[id] != []
    ensures EventsDistinct(s.(queues := s.queues[id := s.queues[id][1..]]))
  {
    var t := s.(queues := s.queues[id := s.queues[id][1..]]);
    forall i, j, m, n | i in t.queues && j in t.queues && 0 <= m < |t.queues[i]| && 0 <= n < |t.queues[j]| && t.queues[i][m] == t.queues[j][n]
      ensures i == j && m == n
    {
      assert t.queues[i][m] == s.queues[i][if i == id then m + 1 else m];
      assert t.queues[j][n] == s.queues[j][if j == id then n + 1 else n];
    }
  }

  lemma DeliverSeparated(s: State, owner: seq<Owner>, id: nat, later: Heap, a: Address)
    requires Separated(s, owner) && id in s.queues && Grown(s.heap, later) && |s.heap| <= a < |later|
    ensures Separated(s.(heap := later, queues := s.queues[id := s.queues[id] + [a]]), Extend(owner, |later|, InFlight(a)))
  {
    hide Edge, Grown;
    GrownIsLonger(s.heap, later);
    GrownSeparated(s, later, owner, InFlight(a));
    var t := s.(heap := later, queues := s.queues[id := s.queues[id] + [a]]);
    var next := Extend(owner, |later|, InFlight(a));
    forall i, n | i in t.queues && 0 <= n < |t.queues[i]|
      ensures t.queues[i][n] < |next| && next[t.queues[i][n]] == InFlight(t.queues[i][n])
    {
      assert t.queues[i][n] == a || (n < |s.queues[i]| && t.queues[i][n] == s.queues[i][n]);
    }
    SnocDistinct(s, owner, id, a);
  }

  lemma GrownIsLonger(heap: Heap, later: Heap)
    requires Grown(heap, later)
    ensures |heap| <= |later|
  {
  }

  lemma SnocDistinct(s: State, owner: seq<Owner>, id: nat, a: Address)
    requires EventsDistinct(s) && EventsOwned(s, owner) && id in s.queues && |owner| <= a
    ensures EventsDistinct(s.(queues := s.queues[id := s.queues[id] + [a]]))
  {
    var t := s.(queues := s.queues[id := s.queues[id] + [a]]);
    forall i, j, m, n | i in t.queues && j in t.queues && 0 <= m < |t.queues[i]| && 0 <= n < |t.queues[j]| && t.queues[i][m] == t.queues[j][n]
      ensures i == j && m == n
    {
      assert m < |s.queues[i]| ==> t.queues[i][m] == s.queues[i][m];
      assert n < |s.queues[j]| ==> t.queues[j][n] == s.queues[j][n];
    }
  }

  lemma StepSeparated(s: State, owner: seq<Owner>, op: Op) returns (next: seq<Owner>)
    requires Separated(s, owner)
    ensures Separated(Step(s, op), next)
  {
    hide Separated, Alloc, Grown, MayWrite, CanInsert, HasObject;
    next := owner;
    match op
    case Decode(j) =>
      AllocSound(s.heap, j);
      next := DecodeSeparated(s, owner, j);
    case Write(at, node) =>
      if MayWrite(s, at, node) {
        WriteSeparated(s, owner, at, node);
      }
    case Insert(key, root) =>
      if CanInsert(s, root) {
        next := InsertSeparated(s, owner, key, root);
      }
    case Get(key) =>
      if CanCopy(s, key) {
        next := GetSeparated(s, owner, key);
      }
    case Remove(key) =>
      SubsetSeparated(s, owner, key);
    case Subscribe(id) =>
      if id !in s.queues {
        SubscribeSeparated(s, owner, id);
      }
    case Deliver(id, key) =>
      if id in s.queues && CanCopy(s, key) {
        CopySound(s.heap, s.stored[key]);
        var (later, a) := Copy(s.heap, s.stored[key]);
        DeliverSeparated(s, owner, id, later, a);
        next := Extend(owner, |later|, InFlight(a));
      }
    case Receive(id) =>
      if id in s.queues && s.queues[id] != [] {
        ReceiveSeparated(s, owner, id);
        next := HandOver(owner, s.queues[id][0]);
      }
  }

  lemma DecodeSeparated(s: State, owner: seq<Owner>, j: Json) returns (next: seq<Owner>)
    requires Separated(s, owner)
    ensures Separated(Step(s, Decode(j)), next)
  {
    hide Edge, Alloc, Denotes;
    AllocSound(s.heap, j);
    var (later, v) := Alloc(s.heap, j);
    GrownSeparated(s, later, owner, Outside);
    next := Extend(owner, |later|, Outside);
  }

  lemma InsertSeparated(s: State, owner: seq<Owner>, key: ObjectKey, root: Address) returns (next: seq<Owner>)
    requires Separated(s, owner) && CanInsert(s, root)
    ensures Separated(Step(s, Insert(key, root)), next)
  {
    hide Edge, Copy, Denotes, HasObject, Reaches;
    CopySound(s.heap, root);
    var (later, a) := Copy(s.heap, root);
    GrownSeparated(s, later, owner, InStore);
    next := Extend(owner, |later|, InStore);
  }

  lemma GetSeparated(s: State, owner: seq<Owner>, key: ObjectKey) returns (next: seq<Owner>)
    requires Separated(s, owner) && CanCopy(s, key)
    ensures Separated(Step(s, Get(key)), next)
  {
    hide Edge, Copy, Denotes, HasObject;
    CopySound(s.heap, s.stored[key]);
    var (later, a) := Copy(s.heap, s.stored[key]);
    GrownSeparated(s, later, owner, Outside);
    next := Extend(owner, |later|, Outside);
  }

  lemma SubsetSeparated(s: State, owner: seq<Owner>, key: ObjectKey)
    requires Separated(s, owner)
    ensures Separated(Step(s, Remove(key)), owner)
  {
    hide Edge;
  }

  lemma SubscribeSeparated(s: State, owner: seq<Owner>, id: nat)
    requires Separated(s, owner) && id !in s.queues
    ensures Separated(Step(s, Subscribe(id)), owner)
  {
    hide Edge;
  }

  // ----- the values the store and the channels hold -----

  ghost predicate StoredAre(s: State, c: Contents) {
    && s.stored.Keys == c.objects.Keys
    && forall k :: k in s.stored ==> Denotes(s.heap, Ref(s.stored[k]), Obj(c.objects[k]))
  }

  ghost predicate QueueIs(heap: Heap, roots: seq<Address>, events: seq<Object>) {
    |roots| == |events| && forall i :: 0 <= i < |roots| ==> Denotes(heap, Ref(roots[i]), Obj(events[i]))
  }

  ghost predicate QueuesAre(s: State, c: Contents) {
    && s.queues.Keys == c.queued.Keys
    && forall id :: id in s.queues ==> QueueIs(s.heap, s.queues[id], c.queued[id])
  }

  ghost predicate Represents(s: State, c: Contents) {
    StoredAre(s, c) && QueuesAre(s, c)
  }

  lemma RepresentsGrows(s: State, c: Contents, later: Heap)
    requires Represents(s, c) && s.heap <= later
    ensures Represents(s.(heap := later), c)
  {
    forall k | k in s.stored ensures Denotes(later, Ref(s.stored[k]), Obj(c.objects[k])) {
      DenotesGrows(s.heap, later, Ref(s.stored[k]), Obj(c.objects[k]));
    }
    forall id | id in s.queues ensures QueueIs(later, s.queues[id], c.queued[id]) {
      forall i | 0 <= i < |s.queues[id]| ensures Denotes(later, Ref(s.queues[id][i]), Obj(c.queued[id][i])) {
        DenotesGrows(s.heap, later, Ref(s.queues[id][i]), Obj(c.queued[id][i]));
      }
    }
  }

  /** A caller's write, anywhere it can reach, touches neither the store nor a waiting event. */
  lemma WriteInvisible(s: State, owner: seq<Owner>, c: Contents, at: Address, node: Node)
    requires Separated(s, owner) && Represents(s, c) && MayWrite(s, at, node)
    ensures Represents(s.(heap := s.heap[at := node]), c)
  {
    hide Denotes, MayWrite, Closed;
    WriteSeparated(s, owner, at, node);
    InRange(s, owner, at, node);
    var later := s.heap[at := node];
    forall k | k in s.stored ensures Denotes(later, Ref(s.stored[k]), Obj(c.objects[k])) {
      DenotesFrame(s.heap, later, owner, InStore, Ref(s.stored[k]), Obj(c.objects[k]));
    }
    forall id | id in s.queues ensures QueueIs(later, s.queues[id], c.queued[id]) {
      forall i | 0 <= i < |s.queues[id]| ensures Denotes(later, Ref(s.queues[id][i]), Obj(c.queued[id][i])) {
        var event := s.queues[id][i];
        DenotesFrame(s.heap, later, owner, InFlight(event), Ref(event), Obj(c.queued[id][i]));
      }
    }
  }

  lemma InRange(s: State, owner: seq<Owner>, at: Address, node: Node)
    requires Separated(s, owner) && MayWrite(s, at, node)
    ensures |owner| == |s.heap| && at < |s.heap|
  {
  }

  lemma CopyOfKnown(heap: Heap, a: Address, o: Object)
    requires Denotes(heap, Ref(a), Obj(o))
    ensures HasObject(heap, a) && ObjectAt(heap, a) == o
  {
    DenotesOne(heap, Ref(a), Obj(o), Obj(ObjectAt(heap, a)));
  }

  lemma InsertRepresents(s: State, c: Contents, key: ObjectKey, root: Address)
    requires Represents(s, c) && CanInsert(s, root)
    ensures Represents(Step(s, Insert(key, root)), Effect(s, c, Insert(key, root)))
  {
    hide Denotes, Copy, Reaches, HasObject, CloneObject;
    CopySound(s.heap, root);
    var (later, a) := Copy(s.heap, root);
    RepresentsGrows(s, c, later);
  }

  lemma DeliverRepresents(s: State, c: Contents, id: nat, key: ObjectKey)
    requires Represents(s, c)
    ensures Represents(Step(s, Deliver(id, key)), Effect(s, c, Deliver(id, key)))
  {
    hide Denotes, Copy, HasObject, CloneObject;
    if id in s.queues && key in s.stored {
      CopyOfKnown(s.heap, s.stored[key], c.objects[key]);
      CopySound(s.heap, s.stored[key]);
      var (later, a) := Copy(s.heap, s.stored[key]);
      RepresentsGrows(s, c, later);
      var roots, events := s.queues[id] + [a], c.queued[id] + [CloneObject(c.objects[key])];
      assert QueueIs(later, roots, events);
    }
  }

  lemma ReceiveRepresents(s: State, c: Contents, id: nat)
    requires Represents(s, c)
    ensures Represents(Step(s, Receive(id)), Effect(s, c, Receive(id)))
  {
    hide Denotes;
    if id in s.queues {
      assert QueueIs(s.heap, s.queues[id], c.queued[id]);
      if s.queues[id] != [] {
        assert QueueIs(s.heap, s.queues[id][1..], c.queued[id][1..]);
      }
    }
  }

  lemma GetRepresents(s: State, c: Contents, key: ObjectKey)
    requires Represents(s, c)
    ensures Represents(Step(s, Get(key)), c)
  {
    hide Denotes, Copy, HasObject;
    if CanCopy(s, key) {
      CopySound(s.heap, s.stored[key]);
      var (later, a) := Copy(s.heap, s.stored[key]);
      RepresentsGrows(s, c, later);
    }
  }

  lemma DecodeRepresents(s: State, c: Contents, j: Json)
    requires Represents(s, c)
    ensures Represents(Step(s, Decode(j)), c)
  {
    hide Denotes, Alloc;
    AllocSound(s.heap, j);
    RepresentsGrows(s, c, Alloc(s.heap, j).0);
  }

  lemma StepRepresents(s: State, owner: seq<Owner>, c: Contents, op: Op)
    requires Separated(s, owner) && Represents(s, c)
    ensures Represents(Step(s, op), Effect(s, c, op))
  {
    match op
    case Decode(j) => DecodeRepresents(s, c, j);
    case Write(at, node) =>
      hide Denotes, MayWrite;
      if MayWrite(s, at, node) {
        WriteInvisible(s, owner, c, at, node);
      }
    case Insert(key, root) =>
      hide Denotes, CanInsert;
      if CanInsert(s, root) {
        InsertRepresents(s, c, key, root);
      }
    case Get(key) => GetRepresents(s, c, key);
    case Remove(key) =>
      hide Denotes;
    case Subscribe(id) =>
      hide Denotes;
    case Deliver(id, key) => DeliverRepresents(s, c, id, key);
    case Receive(id) => ReceiveRepresents(s, c, id);
  }

  // ----- runs -----

  const EMPTY := State([], map[], map[], {})

  ghost function Run(s: State, ops: seq<Op>): State {
    if ops == [] then s else Step(Run(s, ops[..|ops| - 1]), ops[|ops| - 1])
  }

  ghost function Meaning(s: State, c: Contents, ops: seq<Op>): Contents {
    if ops == [] then c
    else Effect(Run(s, ops[..|ops| - 1]), Meaning(s, c, ops[..|ops| - 1]), ops[|ops| - 1])
  }

  /**
   * Refinement: whatever callers do to their own maps in between, the store and the
   * channels hold what the operations on values give.
   */
  lemma {:induction false} RunRepresents(s: State, first: seq<Owner>, c: Contents, ops: seq<Op>) returns (owner: seq<Owner>)
    requires Separated(s, first) && Represents(s, c)
    ensures Separated(Run(s, ops), owner) && Represents(Run(s, ops), Meaning(s, c, ops))
  {
    hide Separated, Represents, Step, Effect;
    owner := first;
    if ops != [] {
      var init, op := ops[..|ops| - 1], ops[|ops| - 1];
      owner := RunRepresents(s, first, c, init);
      StepRepresents(Run(s, init), owner, Meaning(s, c, init), op);
      owner := StepSeparated(Run(s, init), owner, op);
    }
  }

  /** In every reachable state no map is shared between the store, a waiting event and a caller. */
  lemma NothingShared(ops: seq<Op>, a: Address)
    ensures var s := Run(EMPTY, ops);
      && !(Reaches(s.heap, s.held, a) && Reaches(s.heap, s.stored.Values, a))
      && (forall id, i :: id in s.queues && 0 <= i < |s.queues[id]| && Reaches(s.heap, {s.queues[id][i]}, a) ==>
            !Reaches(s.heap, s.held, a) && !Reaches(s.heap, s.stored.Values, a))
      && (forall i, j, m, n :: i in s.queues && j in s.queues && 0 <= m < |s.queues[i]| && 0 <= n < |s.queues[j]| ==>
            Reaches(s.heap, {s.queues[i][m]}, a) && Reaches(s.heap, {s.queues[j][n]}, a) ==> i == j && m == n)
  {
    hide Reaches, Edge, Step, Denotes;
    var s := Run(EMPTY, ops);
    EmptySeparated();
    var owner := RunRepresents(EMPTY, [], Contents(map[], map[]), ops);
    if Reaches(s.heap, s.held, a) {
      ReachesOwned(s.heap, owner, s.held, Outside, a);
    }
    if Reaches(s.heap, s.stored.Values, a) {
      ReachesOwned(s.heap, owner, s.stored.Values, InStore, a);
    }
    forall id, i | id in s.queues && 0 <= i < |s.queues[id]| && Reaches(s.heap, {s.queues[id][i]}, a)
      ensures !Reaches(s.heap, s.held, a) && !Reaches(s.heap, s.stored.Values, a)
    {
      ReachesOwned(s.heap, owner, {s.queues[id][i]}, InFlight(s.queues[id][i]), a);
    }
    EventsApart(s, owner, a);
  }

  lemma EventsApart(s: State, owner: seq<Owner>, a: Address)
    requires Separated(s, owner)
    ensures forall i, j, m, n :: i in s.queues && j in s.queues && 0 <= m < |s.queues[i]| && 0 <= n < |s.queues[j]| ==>
      Reaches(s.heap, {s.queues[i][m]}, a) && Reaches(s.heap, {s.queues[j][n]}, a) ==> i == j && m == n
  {
    hide Reaches, Edge;
    forall i, j, m, n | i in s.queues && j in s.queues && 0 <= m < |s.queues[i]| && 0 <= n < |s.queues[j]|
      && Reaches(s.heap, {s.queues[i][m]}, a) && Reaches(s.heap, {s.queues[j][n]}, a)
      ensures i == j && m == n
    {
      var e, f := s.queues[i][m], s.queues[j][n];
      ReachesOwned(s.heap, owner, {e}, InFlight(e), a);
      ReachesOwned(s.heap, owner, {f}, InFlight(f), a);
    }
  }

  lemma EmptySeparated()
    ensures Separated(EMPTY, []) && Represents(EMPTY, Contents(map[], map[]))
  {
  }

  predicate CallersOwn(op: Op) {
    op.Decode? || op.Write? || op.Get?
  }

  /**
   * Isolation: a request that reads, decodes and rewrites maps, a half-applied patch list
   * included, and is then refused leaves every stored object and every waiting event as it was.
   */
  lemma {:induction false} CallersChangeNothing(s: State, first: seq<Owner>, c: Contents, ops: seq<Op>)
    requires Separated(s, first) && Represents(s, c)
    requires forall i :: 0 <= i < |ops| ==> CallersOwn(ops[i])
    ensures Represents(Run(s, ops), c)
    ensures Run(s, ops).stored == s.stored && Run(s, ops).queues == s.queues
  {
    hide Separated, Represents, MayWrite;
    if ops != [] {
      var init, op := ops[..|ops| - 1], ops[|ops| - 1];
      CallersChangeNothing(s, first, c, init);
      var owner := RunRepresents(s, first, c, init);
      assert CallersOwn(op);
      StepRepresents(Run(s, init), owner, c, op);
    }
  }

  // ----- the store of values this refines -----

  function Bodies(events: seq<Event>): seq<Object> {
    seq(|events|, i requires 0 <= i < |events| => events[i].obj)
  }

  /** The objects and the waiting objects of a store of values. */
  function ContentsOf(st: Store): Contents {
    Contents(st.objects, map id | id in st.channels :: Bodies(st.channels[id].buffer))
  }

  /** The watchers that will get an event: reached, and with room in their channels. */
  ghost function Served(st: Store, key: ObjectKey, e: Event): set<nat> {
    set id | id in Reached(st, key, e) && id in st.channels && !Full(st, id)
  }

  function Deliveries(ids: seq<nat>, key: ObjectKey): seq<Op> {
    seq(|ids|, i requires 0 <= i < |ids| => Deliver(ids[i], key))
  }

  function IdsOf(ids: seq<nat>): set<nat> {
    set i | i in ids
  }

  /** One more object at the end of the queues of `ids`. */
  function Appended(c: Contents, ids: set<nat>, obj: Object): Contents {
    c.(queued := map id | id in c.queued :: if id in ids then c.queued[id] + [obj] else c.queued[id])
  }

  lemma AppendNone(c: Contents, obj: Object)
    ensures Appended(c, {}, obj) == c
  {
    assert Appended(c, {}, obj).queued == c.queued;
  }

  lemma AppendOneMore(c: Contents, ids: set<nat>, id: nat, obj: Object)
    requires id !in ids && id in c.queued
    ensures var d := Appended(c, ids, obj); d.(queued := d.queued[id := d.queued[id] + [obj]]) == Appended(c, ids + {id}, obj)
  {
    var d := Appended(c, ids, obj);
    assert d.queued[id := d.queued[id] + [obj]] == Appended(c, ids + {id}, obj).queued;
  }

  /** One delivery each, in any order, appends a copy of the stored object everywhere. */
  lemma {:induction false} DeliveriesAppend(s: State, c: Contents, first: seq<Op>, ids: seq<nat>, key: ObjectKey)
    requires var d := Meaning(s, c, first); key in d.objects && forall i :: 0 <= i < |ids| ==> ids[i] in d.queued
    requires forall i, j :: 0 <= i < j < |ids| ==> ids[i] != ids[j]
    ensures var d := Meaning(s, c, first);
      Meaning(s, c, first + Deliveries(ids, key)) == Appended(d, IdsOf(ids), CloneObject(d.objects[key]))
  {
    hide CloneObject, Step, Run, Meaning, Effect, Appended, Deliveries, IdsOf;
    var d := Meaning(s, c, first);
    if ids == [] {
      NoDeliveries(key);
      assert first + [] == first;
      AppendNone(d, CloneObject(d.objects[key]));
    } else {
      var init, id := ids[..|ids| - 1], ids[|ids| - 1];
      DeliveriesAppend(s, c, first, init, key);
      DeliveriesSnoc(ids, key);
      MeaningSnoc(s, c, first + Deliveries(init, key), Deliver(id, key));
      assert first + Deliveries(init, key) + [Deliver(id, key)] == first + (Deliveries(init, key) + [Deliver(id, key)]);
      IdsSnoc(ids);
      DeliverOne(Run(s, first + Deliveries(init, key)), d, IdsOf(init), id, key);
    }
  }

  lemma NoDeliveries(key: ObjectKey)
    ensures Deliveries([], key) == [] && IdsOf([]) == {}
  {
  }

  lemma DeliveriesSnoc(ids: seq<nat>, key: ObjectKey)
    requires ids != []
    ensures Deliveries(ids, key) == Deliveries(ids[..|ids| - 1], key) + [Deliver(ids[|ids| - 1], key)]
  {
  }

  lemma IdsSnoc(ids: seq<nat>)
    requires ids != [] && forall i, j :: 0 <= i < j < |ids| ==> ids[i] != ids[j]
    ensures IdsOf(ids) == IdsOf(ids[..|ids| - 1]) + {ids[|ids| - 1]} && ids[|ids| - 1] !in IdsOf(ids[..|ids| - 1])
  {
  }

  lemma MeaningSnoc(s: State, c: Contents, ops: seq<Op>, op: Op)
    ensures Meaning(s, c, ops + [op]) == Effect(Run(s, ops), Meaning(s, c, ops), op)
  {
    assert (ops + [op])[..|ops|] == ops;
    hide Effect, Run;
  }

  lemma DeliverOne(s: State, d: Contents, ids: set<nat>, id: nat, key: ObjectKey)
    requires id !in ids && id in d.queued && key in d.objects
    ensures var obj := CloneObject(d.objects[key]);
      Effect(s, Appended(d, ids, obj), Deliver(id, key)) == Appended(d, ids + {id}, obj)
  {
    hide CloneObject;
    AppendOneMore(d, ids, id, CloneObject(d.objects[key]));
  }

  lemma PublishContents(st: Store, key: ObjectKey, e: Event)
    ensures ContentsOf(Publish(st, key, e)) == Appended(ContentsOf(st), Served(st, key, e), e.obj)
  {
    hide Publish, Served;
    var t := Publish(st, key, e);
    forall id | id in st.channels
      ensures id in t.channels
      ensures Bodies(t.channels[id].buffer) == Appended(ContentsOf(st), Served(st, key, e), e.obj).queued[id]
    {
      PublishedChannel(st, key, e, id);
      assert Bodies(st.channels[id].buffer + [e]) == Bodies(st.channels[id].buffer) + [e.obj];
    }
    PublishKeeps(st, key, e);
    SameChannels(st, key, e);
    assert ContentsOf(t).queued == Appended(ContentsOf(st), Served(st, key, e), e.obj).queued;
  }

  lemma SameChannels(st: Store, key: ObjectKey, e: Event)
    ensures Publish(st, key, e).channels.Keys == st.channels.Keys
  {
    hide Interested;
  }

  lemma PublishedChannel(st: Store, key: ObjectKey, e: Event, id: nat)
    requires id in st.channels
    ensures id in Publish(st, key, e).channels
    ensures Publish(st, key, e).channels[id].buffer
      == if id in Served(st, key, e) then st.channels[id].buffer + [e] else st.channels[id].buffer
  {
    hide Interested;
  }

  /**
   * put: once the caller's map is stamped, keeping a copy and delivering one more copy to each
   * served watcher does to the values what StoreModel.Put does.
   */
  lemma PutMeans(s: State, st: Store, key: ObjectKey, obj: Object, kind: EventType, root: Address, ids: seq<nat>)
    requires PutVerdict(st, key, obj, kind) == Stored
    requires Reaches(s.heap, s.held, root) && Denotes(s.heap, Ref(root), Obj(Stamp(obj, st.revision + 1)))
    requires forall i, j :: 0 <= i < j < |ids| ==> ids[i] != ids[j]
    requires IdsOf(ids) == Served(st, key, Event(kind, Kept(st, obj)))
    ensures Meaning(s, ContentsOf(st), [Insert(key, root)] + Deliveries(ids, key)) == ContentsOf(Put(st, key, obj, kind))
  {
    hide CloneObject, Stamp, Denotes, Reaches, Publish, Put, PutVerdict, Served, Bodies;
    var c, kept := ContentsOf(st), Kept(st, obj);
    var committed := Commit(st, key, kept, ChargedTotal(st, key, obj));
    CopyOfKnown(s.heap, root, Stamp(obj, st.revision + 1));
    CloneObjectTwice(Stamp(obj, st.revision + 1));
    MeaningOne(s, c, Insert(key, root));
    var d := Meaning(s, c, [Insert(key, root)]);
    assert d == ContentsOf(committed);
    ServedKnown(st, key, Event(kind, kept), ids);
    DeliveriesAppend(s, c, [Insert(key, root)], ids, key);
    ServedSame(st, committed, key, Event(kind, kept));
    PublishContents(committed, key, Event(kind, kept));
    PutStored(st, key, obj, kind);
  }

  lemma MeaningOne(s: State, c: Contents, op: Op)
    ensures Meaning(s, c, [op]) == Effect(s, c, op)
  {
    assert [op][..0] == [];
    hide Effect;
  }

  lemma ServedKnown(st: Store, key: ObjectKey, e: Event, ids: seq<nat>)
    requires IdsOf(ids) == Served(st, key, e)
    ensures forall i :: 0 <= i < |ids| ==> ids[i] in ContentsOf(st).queued
  {
    hide Interested, Bodies;
    forall i | 0 <= i < |ids| ensures ids[i] in ContentsOf(st).queued {
      assert ids[i] in Served(st, key, e);
    }
  }

  lemma ServedSame(st: Store, t: Store, key: ObjectKey, e: Event)
    requires st.watchers == t.watchers && st.channels == t.channels
    ensures Served(st, key, e) == Served(t, key, e)
  {
    hide Interested;
  }

  /** delete: the copies go out and the object goes away, as StoreModel.Delete says. */
  lemma DeleteMeans(s: State, st: Store, key: ObjectKey, ids: seq<nat>)
    requires key in st.objects
    requires forall i, j :: 0 <= i < j < |ids| ==> ids[i] != ids[j]
    requires IdsOf(ids) == Served(st, key, Event(Deleted, CloneObject(st.objects[key])))
    ensures Meaning(s, ContentsOf(st), Deliveries(ids, key) + [Remove(key)]) == ContentsOf(Delete(st, key))
  {
    hide CloneObject, Served, Bodies, Run, Delete, Meaning, Effect;
    var c := ContentsOf(st);
    NothingMeant(s, c);
    assert [] + Deliveries(ids, key) == Deliveries(ids, key);
    ServedKnown(st, key, Event(Deleted, CloneObject(st.objects[key])), ids);
    DeliveriesAppend(s, c, [], ids, key);
    MeaningSnoc(s, c, Deliveries(ids, key), Remove(key));
    RemoveMeans(Run(s, Deliveries(ids, key)), Meaning(s, c, Deliveries(ids, key)), key);
    DeletedContents(st, key);
  }

  lemma NothingMeant(s: State, c: Contents)
    ensures Meaning(s, c, []) == c
  {
  }

  lemma RemoveMeans(s: State, c: Contents, key: ObjectKey)
    ensures Effect(s, c, Remove(key)) == c.(objects := c.objects - {key})
  {
  }

  lemma DeletedContents(st: Store, key: ObjectKey)
    requires key in st.objects
    ensures var e := Event(Deleted, CloneObject(st.objects[key]));
      ContentsOf(Delete(st, key)) == Appended(ContentsOf(st), Served(st, key, e), e.obj).(objects := st.objects - {key})
  {
    hide CloneObject, Publish, Served, Bodies, StoredLength;
    var e := Event(Deleted, CloneObject(st.objects[key]));
    var removed := StoreModel.Remove(st, key, st.bytes - StoredLength(st.objects, key));
    ServedSame(st, removed, key, e);
    PublishContents(removed, key, e);
  }
}
