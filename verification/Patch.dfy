/** JSON Patch as the API applies it: resolving, writing and the operation list. */
module Patch {
  import opened Text
  import opened Json
  import opened Pointers

  // ----- resolvePatchTarget -----

  datatype Target = Missing | Found(value: Json)

  /** Pointers pass through objects only. */
  function Resolve(node: Json, segments: seq<string>): Target {
    if segments == [] then Found(node)
    else if node.Obj? && segments[0] in node.members then Resolve(node.members[segments[0]], segments[1..])
    else Missing
  }

  /** The empty path addresses nothing. */
  function ResolvePath(document: Json, path: string): Target {
    if PatchPointer(path) == [] then Missing else Resolve(document, PatchPointer(path))
  }

  method ResolvePatchTarget(document: Json, path: string) returns (target: Target)
    ensures target == ResolvePath(document, path)
  {
    var segments := ParsePointer(path);
    if |segments| == 0 {
      return Missing;
    }
    var current := document;
    for i := 0 to |segments| - 1
      invariant Resolve(document, segments) == Resolve(current, segments[i..])
    {
      assert segments[i..][1..] == segments[i + 1..];
      if !current.Obj? || segments[i] !in current.members {
        return Missing;
      }
      current := current.members[segments[i]];
    }
    var leaf := segments[|segments| - 1];
    assert segments[|segments| - 1..] == [leaf] && [leaf][1..] == [];
    if !current.Obj? || leaf !in current.members {
      return Missing;
    }
    target := Found(current.members[leaf]);
  }

  // ----- strconv.Atoi -----

  predicate AllDigits(s: string) {
    s != "" && forall i :: 0 <= i < |s| ==> '0' <= s[i] <= '9'
  }

  /** An optional sign and decimal digits; anything else is not a number. */
  function Atoi(s: string): (r: (int, bool)) {
    if AllDigits(s) then (DecimalValue(s), true)
    else if s != "" && s[0] == '+' && AllDigits(s[1..]) then (DecimalValue(s[1..]), true)
    else if s != "" && s[0] == '-' && AllDigits(s[1..]) then (0 - DecimalValue(s[1..]) as int, true)
    else (0, false)
  }

  // ----- patchWrite -----

  datatype Written = Written(node: Json, ok: bool)

  /** The index a leaf segment addresses in an array of `length` items, if the write may go there. */
  function IndexFor(leaf: string, length: nat, remove: bool): (r: (nat, bool))
    ensures r.1 ==> r.0 <= length && (remove ==> r.0 < length)
  {
    var (index, isNumber) := Atoi(leaf);
    var bound := if remove then length - 1 else length;
    if isNumber && 0 <= index <= bound then (index, true) else (0, false)
  }

  function WriteLeaf(node: Json, leaf: string, value: Json, remove: bool): Written {
    match node
    case Obj(m) => Written(Obj(if remove then m - {leaf} else m[leaf := value]), true)
    case Arr(xs) =>
      var (i, ok) := IndexFor(leaf, |xs|, remove);
      if !ok then Written(node, false)
      else Written(Arr(if remove then xs[..i] + xs[i + 1..] else xs[..i] + [value] + xs[i..]), true)
    case _ => Written(node, false)
  }

  /** What a member holds for the walk: a missing one is created as an empty object. */
  function Child(node: Json, segment: string): Json
    requires node.Obj?
  {
    if segment in node.members then node.members[segment] else Obj(map[])
  }

  function Write(node: Json, segments: seq<string>, value: Json, remove: bool): Written
    requires segments != []
    decreases |segments|
  {
    if |segments| == 1 then WriteLeaf(node, segments[0], value, remove)
    else if !node.Obj? then Written(node, false)
    else
      var below := Write(Child(node, segments[0]), segments[1..], value, remove);
      Written(Obj(node.members[segments[0] := below.node]), below.ok)
  }

  function WritePath(document: Json, path: string, value: Json, remove: bool): Written {
    if PatchPointer(path) == [] then Written(document, false) else Write(document, PatchPointer(path), value, remove)
  }

  /** Walks down remembering the containers, then rebuilds them around the written leaf. */
  method PatchWrite(document: Json, path: string, value: Json, remove: bool) returns (r: Written)
    ensures r == WritePath(document, path, value, remove)
  {
    var segments := ParsePointer(path);
    if |segments| == 0 {
      return Written(document, false);
    }
    r := WriteBelow(document, segments, value, remove);
  }

  method WriteBelow(document: Json, segments: seq<string>, value: Json, remove: bool) returns (r: Written)
    requires segments != []
    ensures r == Write(document, segments, value, remove)
  {
    var nodes := [document];
    var i := 0;
    while i < |segments| - 1 && nodes[i].Obj?
      invariant 0 <= i <= |segments| - 1 && |nodes| == i + 1 && nodes[0] == document
      invariant forall k :: 0 <= k < i ==> nodes[k].Obj? && nodes[k + 1] == Child(nodes[k], segments[k])
    {
      nodes := nodes + [Child(nodes[i], segments[i])];
      i := i + 1;
    }
    if i == |segments| - 1 {
      r := WriteLeaf(nodes[i], segments[i], value, remove);
    } else {
      r := Written(nodes[i], false);
    }
    while i > 0
      invariant 0 <= i <= |segments| - 1 && i < |nodes| && nodes[0] == document
      invariant forall k :: 0 <= k < i ==> nodes[k].Obj? && nodes[k + 1] == Child(nodes[k], segments[k])
      invariant r == Write(nodes[i], segments[i..], value, remove)
    {
      i := i - 1;
      assert segments[i..][1..] == segments[i + 1..];
      r := Written(Obj(nodes[i].members[segments[i] := r.node]), r.ok);
    }
    assert segments[0..] == segments;
  }

  // ----- the operation list -----

  datatype Operation = Operation(op: string, path: string, source: string, value: Json)

  /** What json.Marshal prints of decoded values: numbers by their digits alone, typed maps like others. */
  function Printed(j: Json): Json {
    match j
    case Num(n) => Num(Float(n.text))
    case Arr(xs) => Arr(seq(|xs|, i requires 0 <= i < |xs| => Printed(xs[i])))
    case Obj(m) => Obj(map k | k in m :: Printed(m[k]))
    case Texts(t) => Obj(AsObject(t))
    case _ => j
  }

  function ApplyOne(document: Json, o: Operation): Written {
    if o.op == "test" then
      var target := ResolvePath(document, o.path);
      Written(document, target.Found? && Printed(target.value) == Printed(o.value))
    else if o.op == "move" || o.op == "copy" then
      var target := ResolvePath(document, o.source);
      if target.Missing? then Written(document, false)
      else
        var cleared := if o.op == "move" then WritePath(document, o.source, Null, true) else Written(document, true);
        if !cleared.ok then cleared else WritePath(cleared.node, o.path, target.value, false)
    else if o.op == "add" || o.op == "replace" then WritePath(document, o.path, o.value, false)
    else if o.op == "remove" then WritePath(document, o.path, Null, true)
    else Written(document, true)
  }

  function ApplyAll(document: Json, operations: seq<Operation>): Written
    decreases |operations|
  {
    if operations == [] then Written(document, true)
    else
      var first := ApplyOne(document, operations[0]);
      if first.ok then ApplyAll(first.node, operations[1..]) else first
  }

  method ApplyJSONPatch(document: Json, operations: seq<Operation>) returns (r: Written)
    ensures r == ApplyAll(document, operations)
  {
    r := Written(document, true);
    for i := 0 to |operations|
      invariant r.ok && ApplyAll(document, operations) == ApplyAll(r.node, operations[i..])
    {
      var o := operations[i];
      assert operations[i..][0] == o && operations[i..][1..] == operations[i + 1..];
      var value, op := o.value, o.op;
      if op == "test" {
        var current := ResolvePatchTarget(r.node, o.path);
        if !current.Found? || Printed(current.value) != Printed(value) {
          return Written(r.node, false);
        }
        continue;
      }
      if op == "move" || op == "copy" {
        var current := ResolvePatchTarget(r.node, o.source);
        if !current.Found? {
          return Written(r.node, false);
        }
        value := current.value;
        if op == "move" {
          r := PatchWrite(r.node, o.source, Null, true);
          if !r.ok {
            return;
          }
        }
        op := "add";
      }
      if op == "add" || op == "replace" {
        r := PatchWrite(r.node, o.path, value, false);
      } else if op == "remove" {
        r := PatchWrite(r.node, o.path, Null, true);
      }
      if !r.ok {
        return;
      }
    }
  }

  // ----- laws -----

  /** The node the leaf is written into, with missing parents standing for the objects that get created. */
  function Parent(node: Json, segments: seq<string>): Target
    requires segments != []
    decreases |segments|
  {
    if |segments| == 1 then Found(node)
    else if node.Obj? then Parent(Child(node, segments[0]), segments[1..])
    else Missing
  }

  predicate ObjectLeaf(node: Json, segments: seq<string>)
    requires segments != []
  {
    Parent(node, segments).Found? && Parent(node, segments).value.Obj?
  }

  predicate ArrayLeaf(node: Json, segments: seq<string>, remove: bool)
    requires segments != []
  {
    var parent := Parent(node, segments);
    parent.Found? && parent.value.Arr? && IndexFor(segments[|segments| - 1], |parent.value.items|, remove).1
  }

  /** A write succeeds exactly at an object member or at an array index in range. */
  lemma {:induction false} WriteSucceeds(node: Json, segments: seq<string>, value: Json, remove: bool)
    requires segments != []
    ensures Write(node, segments, value, remove).ok <==> ObjectLeaf(node, segments) || ArrayLeaf(node, segments, remove)
    decreases |segments|
  {
    if |segments| > 1 && node.Obj? {
      WriteSucceeds(Child(node, segments[0]), segments[1..], value, remove);
      assert segments[1..][|segments| - 2] == segments[|segments| - 1];
    }
  }

  /** A refused write leaves the document as it was, although the walk may create parents. */
  lemma {:induction false} RefusedWriteChangesNothing(node: Json, segments: seq<string>, value: Json, remove: bool)
    requires segments != [] && !Write(node, segments, value, remove).ok
    ensures Write(node, segments, value, remove).node == node
    decreases |segments|
  {
    if |segments| > 1 && node.Obj? {
      if segments[0] !in node.members {
        CreatedWriteSucceeds(segments[1..], value, remove);
      }
      RefusedWriteChangesNothing(Child(node, segments[0]), segments[1..], value, remove);
      assert node.members[segments[0] := node.members[segments[0]]] == node.members;
    }
  }

  lemma {:induction false} CreatedWriteSucceeds(segments: seq<string>, value: Json, remove: bool)
    requires segments != []
    ensures Write(Obj(map[]), segments, value, remove).ok
    decreases |segments|
  {
    if |segments| > 1 {
      CreatedWriteSucceeds(segments[1..], value, remove);
    }
  }

  /** A written value is read back exactly when it became an object member; a removed one is gone. */
  lemma {:induction false} WriteThenRead(node: Json, segments: seq<string>, value: Json, remove: bool)
    requires segments != [] && Write(node, segments, value, remove).ok
    ensures Resolve(Write(node, segments, value, remove).node, segments)
      == if ObjectLeaf(node, segments) && !remove then Found(value) else Missing
    decreases |segments|
  {
    if |segments| == 1 {
      assert segments[1..] == [];
    } else {
      WriteThenRead(Child(node, segments[0]), segments[1..], value, remove);
    }
  }

  /** Neither pointer is a prefix of the other. */
  predicate Diverge(p: seq<string>, q: seq<string>) {
    p != [] && q != [] && (p[0] != q[0] || Diverge(p[1..], q[1..]))
  }

  /** Every pointer that diverges from the written one resolves as before, even when parents are created. */
  lemma {:induction false} WriteFrames(node: Json, p: seq<string>, q: seq<string>, value: Json, remove: bool)
    requires Diverge(p, q)
    ensures Resolve(Write(node, p, value, remove).node, q) == Resolve(node, q)
    decreases |p|
  {
    if |p| == 1 {
      assert p[1..] == [];
    } else if node.Obj? && p[0] == q[0] {
      WriteFrames(Child(node, p[0]), p[1..], q[1..], value, remove);
      if p[0] !in node.members {
        assert q[1..] != [];
      }
    }
  }

  /** Every segment above the leaf names an existing member, and the leaf names none. */
  predicate AbsentMember(node: Json, segments: seq<string>)
    requires segments != []
    decreases |segments|
  {
    node.Obj? && if |segments| == 1 then segments[0] !in node.members
    else segments[0] in node.members && AbsentMember(node.members[segments[0]], segments[1..])
  }

  /**
   * Adding and then removing at one pointer restores the document exactly when the add inserted
   * into an array, or set an absent member of an existing object.
   */
  lemma {:induction false} AddThenRemove(node: Json, segments: seq<string>, value: Json)
    requires segments != [] && Write(node, segments, value, false).ok
    ensures var added := Write(node, segments, value, false).node;
      var removed := Write(added, segments, Null, true);
      removed.ok && (removed.node == node <==> ArrayLeaf(node, segments, false) || AbsentMember(node, segments))
    decreases |segments|
  {
    if |segments| == 1 {
      LeafRoundTrip(node, segments[0], value);
    } else {
      var head, child := segments[0], Child(node, segments[0]);
      AddThenRemove(child, segments[1..], value);
      assert segments[1..][|segments| - 2] == segments[|segments| - 1];
      var back := Write(Write(child, segments[1..], value, false).node, segments[1..], Null, true);
      assert Write(Write(node, segments, value, false).node, segments, Null, true) ==
        Written(Obj(node.members[head := Write(child, segments[1..], value, false).node][head := back.node]), back.ok);
      if head in node.members {
        assert node.members[head := Write(child, segments[1..], value, false).node][head := child] == node.members;
      } else {
        EmptyParent(segments[1..]);
      }
    }
  }

  lemma {:induction false} EmptyParent(segments: seq<string>)
    requires segments != []
    ensures ObjectLeaf(Obj(map[]), segments)
    decreases |segments|
  {
    if |segments| > 1 {
      EmptyParent(segments[1..]);
    }
  }

  lemma LeafRoundTrip(node: Json, leaf: string, value: Json)
    requires WriteLeaf(node, leaf, value, false).ok
    ensures var removed := WriteLeaf(WriteLeaf(node, leaf, value, false).node, leaf, Null, true);
      removed.ok && (removed.node == node <==> node.Arr? || leaf !in node.members)
  {
    if node.Arr? {
      var xs := node.items;
      var (i, _) := IndexFor(leaf, |xs|, false);
      var ys := xs[..i] + [value] + xs[i..];
      assert ys[..i] + ys[i + 1..] == xs;
    } else {
      var m := node.members;
      if leaf !in m {
        assert m[leaf := value] - {leaf} == m;
      } else {
        assert leaf !in m[leaf := value] - {leaf};
      }
    }
  }

  /** move takes the value from one place to a diverging one and leaves nothing behind. */
  lemma MoveMoves(document: Json, o: Operation)
    requires o.op == "move"
    requires var p, q := PatchPointer(o.source), PatchPointer(o.path);
      Diverge(p, q) && Resolve(document, p).Found? && ObjectLeaf(Write(document, p, Null, true).node, q)
    ensures ApplyOne(document, o).ok
    ensures ResolvePath(ApplyOne(document, o).node, o.path) == ResolvePath(document, o.source)
    ensures ResolvePath(ApplyOne(document, o).node, o.source) == Missing
  {
    var p, q := PatchPointer(o.source), PatchPointer(o.path);
    var value := Resolve(document, p).value;
    var cleared := Write(document, p, Null, true);
    ResolvedIsWritable(document, p);
    WriteSucceeds(document, p, Null, true);
    WriteThenRead(document, p, Null, true);
    WriteSucceeds(cleared.node, q, value, false);
    WriteThenRead(cleared.node, q, value, false);
    DivergeSymmetric(p, q);
    WriteFrames(cleared.node, q, p, value, false);
    hide Write, Resolve, PatchPointer, Diverge, ObjectLeaf, ArrayLeaf;
  }

  lemma {:induction false} DivergeSymmetric(p: seq<string>, q: seq<string>)
    ensures Diverge(p, q) == Diverge(q, p)
  {
    if p != [] && q != [] {
      DivergeSymmetric(p[1..], q[1..]);
    }
  }

  lemma {:induction false} ResolvedIsWritable(node: Json, segments: seq<string>)
    requires segments != [] && Resolve(node, segments).Found?
    ensures ObjectLeaf(node, segments)
    decreases |segments|
  {
    if |segments| > 1 {
      ResolvedIsWritable(node.members[segments[0]], segments[1..]);
    }
  }

  // ----- what a write does to the container it writes into -----

  function Above(segments: seq<string>): seq<string>
    requires segments != []
  {
    segments[..|segments| - 1]
  }

  lemma {:induction false} WriteAtParent(node: Json, segments: seq<string>, value: Json, remove: bool)
    requires segments != [] && Resolve(node, Above(segments)).Found?
    ensures var below := WriteLeaf(Resolve(node, Above(segments)).value, segments[|segments| - 1], value, remove);
      var r := Write(node, segments, value, remove);
      r.ok == below.ok && Resolve(r.node, Above(segments)) == Found(below.node)
    decreases |segments|
  {
    if |segments| > 1 {
      var rest := segments[1..];
      assert Above(segments)[0] == segments[0] && Above(segments)[1..] == Above(rest);
      assert rest[|rest| - 1] == segments[|segments| - 1];
      WriteAtParent(node.members[segments[0]], rest, value, remove);
    } else {
      assert Above(segments) == [];
    }
  }

  /** In an existing object the member is set, or taken away, and all others stay. */
  lemma MemberWritten(node: Json, segments: seq<string>, value: Json)
    requires segments != [] && Resolve(node, Above(segments)).Found? && Resolve(node, Above(segments)).value.Obj?
    ensures var m, leaf := Resolve(node, Above(segments)).value.members, segments[|segments| - 1];
      var set_, gone := Write(node, segments, value, false), Write(node, segments, value, true);
      && set_.ok && Resolve(set_.node, Above(segments)) == Found(Obj(m[leaf := value]))
      && gone.ok && Resolve(gone.node, Above(segments)) == Found(Obj(m - {leaf}))
  {
    WriteAtParent(node, segments, value, false);
    WriteAtParent(node, segments, value, true);
    hide Write, Resolve;
  }

  /** A decimal number addresses an item that is there, or, to add, the place after the last. */
  lemma NumberAddresses(n: nat, length: nat, remove: bool)
    ensures IndexFor(Decimal(n), length, remove) == if n < length || (n == length && !remove) then (n, true) else (0, false)
  {
    DecimalRoundTrip(n);
    hide Decimal, DecimalValue;
  }

  /** Nothing else does: not the "-" that RFC 6901 reads as the end, nor any other text. */
  lemma OnlyNumbersAddress(leaf: string, length: nat, remove: bool)
    requires leaf == "" || (leaf[0] != '+' && leaf[0] != '-' && !('0' <= leaf[0] <= '9')) || leaf == "-"
    ensures !IndexFor(leaf, length, remove).1
  {
  }

  /** In an existing array the value is inserted before item `n`, or item `n` is taken out; all others keep their order. */
  lemma ItemWritten(node: Json, segments: seq<string>, n: nat, value: Json)
    requires segments != [] && Resolve(node, Above(segments)).Found? && Resolve(node, Above(segments)).value.Arr?
    requires segments[|segments| - 1] == Decimal(n)
    ensures var xs := Resolve(node, Above(segments)).value.items;
      var added, gone := Write(node, segments, value, false), Write(node, segments, value, true);
      && (added.ok <==> n <= |xs|) && (gone.ok <==> n < |xs|)
      && (added.ok ==> Resolve(added.node, Above(segments)) == Found(Arr(xs[..n] + [value] + xs[n..])))
      && (gone.ok ==> Resolve(gone.node, Above(segments)) == Found(Arr(xs[..n] + xs[n + 1..])))
  {
    WriteAtParent(node, segments, value, false);
    WriteAtParent(node, segments, value, true);
    NumberAddresses(n, |Resolve(node, Above(segments)).value.items|, false);
    NumberAddresses(n, |Resolve(node, Above(segments)).value.items|, true);
    hide Write, Resolve, IndexFor, Decimal;
  }

  // ----- one law for each operation -----

  /** Every pointer that diverges from `path` reads the same in both. */
  ghost predicate SameElsewhere(before: Json, after: Json, path: string) {
    forall other :: Diverge(PatchPointer(path), PatchPointer(other)) ==> ResolvePath(after, other) == ResolvePath(before, other)
  }

  lemma WritesElsewhere(document: Json, path: string, value: Json, remove: bool)
    ensures SameElsewhere(document, WritePath(document, path, value, remove).node, path)
  {
    hide PatchPointer, Diverge, Write;
    forall other | Diverge(PatchPointer(path), PatchPointer(other))
      ensures ResolvePath(WritePath(document, path, value, remove).node, other) == ResolvePath(document, other)
    {
      NotEmpty(PatchPointer(path), PatchPointer(other));
      WriteFrames(document, PatchPointer(path), PatchPointer(other), value, remove);
    }
  }

  lemma NotEmpty(p: seq<string>, q: seq<string>)
    requires Diverge(p, q)
    ensures p != [] && q != []
  {
  }

  /** The path leads to a member of an object, existing or created on the way. */
  ghost predicate AtMember(document: Json, path: string) {
    PatchPointer(path) != [] && ObjectLeaf(document, PatchPointer(path))
  }

  lemma MemberSet(document: Json, path: string, value: Json, remove: bool)
    requires AtMember(document, path)
    ensures var r := WritePath(document, path, value, remove);
      r.ok && ResolvePath(r.node, path) == if remove then Missing else Found(value)
  {
    hide Write, Resolve, PatchPointer, ObjectLeaf, ArrayLeaf;
    WriteSucceeds(document, PatchPointer(path), value, remove);
    WriteThenRead(document, PatchPointer(path), value, remove);
  }

  /** add and replace: a member then reads as the value, and nothing else has changed. */
  lemma AddSets(document: Json, o: Operation)
    requires o.op == "add" || o.op == "replace"
    ensures SameElsewhere(document, ApplyOne(document, o).node, o.path)
    ensures AtMember(document, o.path) ==> ApplyOne(document, o).ok && ResolvePath(ApplyOne(document, o).node, o.path) == Found(o.value)
  {
    hide WritePath, AtMember, SameElsewhere, ResolvePath, Printed;
    WritesElsewhere(document, o.path, o.value, false);
    if AtMember(document, o.path) {
      MemberSet(document, o.path, o.value, false);
    }
  }

  /** remove: a member is gone, and nothing else has changed. */
  lemma RemoveClears(document: Json, o: Operation)
    requires o.op == "remove"
    ensures SameElsewhere(document, ApplyOne(document, o).node, o.path)
    ensures AtMember(document, o.path) ==> ApplyOne(document, o).ok && ResolvePath(ApplyOne(document, o).node, o.path) == Missing
  {
    hide WritePath, AtMember, SameElsewhere, ResolvePath, Printed;
    WritesElsewhere(document, o.path, Null, true);
    if AtMember(document, o.path) {
      MemberSet(document, o.path, Null, true);
    }
  }

  /** copy: a member then reads as the source did, and nothing else has changed, the source least of all. */
  lemma CopyCopies(document: Json, o: Operation)
    requires o.op == "copy"
    ensures ResolvePath(document, o.source).Missing? ==> ApplyOne(document, o) == Written(document, false)
    ensures SameElsewhere(document, ApplyOne(document, o).node, o.path)
    ensures ResolvePath(document, o.source).Found? && AtMember(document, o.path) ==>
      ApplyOne(document, o).ok && ResolvePath(ApplyOne(document, o).node, o.path) == ResolvePath(document, o.source)
    ensures ResolvePath(document, o.source).Found? && AtMember(document, o.path) && Diverge(PatchPointer(o.path), PatchPointer(o.source)) ==>
      ResolvePath(ApplyOne(document, o).node, o.source) == ResolvePath(document, o.source)
  {
    hide WritePath, AtMember, ResolvePath, Printed, Diverge, PatchPointer;
    var target := ResolvePath(document, o.source);
    if target.Found? {
      WritesElsewhere(document, o.path, target.value, false);
      if AtMember(document, o.path) {
        MemberSet(document, o.path, target.value, false);
      }
    }
  }

  /** test: the document is not touched; it holds exactly for a value that is there and prints like the given one. */
  lemma TestDecides(document: Json, o: Operation)
    requires o.op == "test"
    ensures ApplyOne(document, o).node == document
    ensures ApplyOne(document, o).ok <==>
      ResolvePath(document, o.path).Found? && Printed(ResolvePath(document, o.path).value) == Printed(o.value)
  {
    hide ResolvePath, Printed;
  }

  /** Of decoded values nothing is lost in print, so that `test` compares the values themselves. */
  lemma {:induction false} PrintedWhole(j: Json)
    requires Decoded(j)
    ensures Printed(j) == j
  {
    match j
    case Arr(xs) =>
      forall i | 0 <= i < |xs| ensures Printed(xs[i]) == xs[i] {
        PrintedWhole(xs[i]);
      }
      assert Printed(j).items == xs;
    case Obj(m) =>
      forall k | k in m ensures Printed(m[k]) == m[k] {
        PrintedWhole(m[k]);
      }
      assert Printed(j).members == m;
    case _ =>
  }

  /** An operation the code does not know is passed over. */
  lemma UnknownIgnored(document: Json, o: Operation)
    requires o.op != "add" && o.op != "replace" && o.op != "remove" && o.op != "move" && o.op != "copy" && o.op != "test"
    ensures ApplyOne(document, o) == Written(document, true)
  {
  }

  /** move: what diverges from both places reads the same; a source that does not resolve is refused, and the document with it. */
  lemma MoveFrames(document: Json, o: Operation)
    requires o.op == "move"
    ensures ResolvePath(document, o.source).Missing? ==> ApplyOne(document, o) == Written(document, false)
    ensures forall other :: Diverge(PatchPointer(o.path), PatchPointer(other)) && Diverge(PatchPointer(o.source), PatchPointer(other)) ==>
      ResolvePath(ApplyOne(document, o).node, other) == ResolvePath(document, other)
  {
    hide WritePath, ResolvePath, Printed, Diverge, PatchPointer;
    var target := ResolvePath(document, o.source);
    if target.Found? {
      WritesElsewhere(document, o.source, Null, true);
      WritesElsewhere(WritePath(document, o.source, Null, true).node, o.path, target.value, false);
    }
  }

  // ----- the list of operations -----

  /** A list does what its first part does and, if that succeeds, what the rest does after it. */
  lemma {:induction false} ApplyConcat(document: Json, first: seq<Operation>, second: seq<Operation>)
    ensures var r := ApplyAll(document, first);
      ApplyAll(document, first + second) == if r.ok then ApplyAll(r.node, second) else r
    decreases |first|
  {
    hide ApplyOne;
    if first == [] {
      assert first + second == second;
    } else {
      assert (first + second)[1..] == first[1..] + second;
      ApplyConcat(ApplyOne(document, first[0]).node, first[1..], second);
    }
  }

  lemma ApplySingle(document: Json, o: Operation)
    ensures ApplyAll(document, [o]) == ApplyOne(document, o) && ApplyAll(document, []) == Written(document, true)
  {
    hide ApplyOne;
    assert [o][1..] == [];
  }

  // ----- where the standard's reading and these laws part -----

  const LISTED := Obj(map["a" := Arr([])])

  /** Inserted at the front of an array, a value is there but no pointer reads it. */
  lemma InsertedIsNotRead(value: Json)
    ensures Write(LISTED, ["a", "0"], value, false) == Written(Obj(map["a" := Arr([value])]), true)
    ensures Resolve(Write(LISTED, ["a", "0"], value, false).node, ["a", "0"]) == Missing
  {
    ZeroIsDigits();
    assert ["a", "0"][1..] == ["0"];
    assert IndexFor("0", 0, false) == (0, true);
    var none: seq<Json> := [];
    assert none[..0] + [value] + none[0..] == [value];
    assert WriteLeaf(Arr([]), "0", value, false) == Written(Arr([value]), true);
    assert LISTED.members["a" := Arr([value])] == map["a" := Arr([value])];
    WriteThenRead(LISTED, ["a", "0"], value, false);
  }

  lemma ZeroIsDigits()
    ensures AllDigits("0") && Atoi("0") == (0, true)
  {
    assert DecimalValue("0"[..0]) == 0;
  }

  /** Removing what was added under a missing parent leaves the parent, and over a member nothing. */
  lemma RemovalDoesNotRestore(value: Json)
    ensures Write(Write(Obj(map[]), ["a", "b"], value, false).node, ["a", "b"], Null, true).node == Obj(map["a" := Obj(map[])])
    ensures Write(Write(LISTED, ["a"], value, false).node, ["a"], Null, true).node == Obj(map[])
  {
    assert ["a", "b"][1..] == ["b"];
    assert map["b" := value] - {"b"} == map[];
    assert Write(Obj(map[]), ["a", "b"], value, false).node == Obj(map["a" := Obj(map["b" := value])]);
    assert LISTED.members["a" := value] - {"a"} == map[];
  }
}
