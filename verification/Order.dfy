/** Where an object sits in a listing, and the order in which listings present objects. */
module Order {
  import opened Text

  datatype Place = Place(namespace: string, name: string)

  predicate Before(a: Place, b: Place) {
    if a.namespace != b.namespace then Less(a.namespace, b.namespace) else Less(a.name, b.name)
  }

  /** By namespace, and within one namespace by name. */
  lemma BeforeExactly(a: Place, b: Place)
    ensures Before(a, b) <==> Less(a.namespace, b.namespace) || (a.namespace == b.namespace && Less(a.name, b.name))
  {
    LessIrreflexive(a.namespace);
  }

  predicate Sorted(s: seq<Place>) {
    forall i, j :: 0 <= i < j < |s| ==> Before(s[i], s[j])
  }

  function Elements<T>(s: seq<T>): set<T> {
    set x | x in s
  }

  lemma BeforeStrict(a: Place, b: Place)
    requires Before(a, b)
    ensures a != b && !Before(b, a)
  {
    LessIrreflexive(a.namespace);
    LessIrreflexive(a.name);
    if Before(b, a) {
      if a.namespace != b.namespace {
        LessTransitive(a.namespace, b.namespace, a.namespace);
      } else {
        LessTransitive(a.name, b.name, a.name);
      }
    }
  }

  lemma BeforeTransitive(a: Place, b: Place, c: Place)
    requires Before(a, b) && Before(b, c)
    ensures Before(a, c)
  {
    if a.namespace == b.namespace {
      if b.namespace == c.namespace {
        LessTransitive(a.name, b.name, c.name);
      }
    } else if b.namespace != c.namespace {
      LessTransitive(a.namespace, b.namespace, c.namespace);
      LessIrreflexive(a.namespace);
      if a.namespace == c.namespace {
        assert false;
      }
    }
  }

  lemma BeforeConnected(a: Place, b: Place)
    ensures a == b || Before(a, b) || Before(b, a)
  {
    LessConnected(a.namespace, b.namespace);
    LessConnected(a.name, b.name);
  }

  /** A sorted sequence lists each element once. */
  lemma SortedNoRepeats(s: seq<Place>)
    requires Sorted(s)
    ensures forall i, j :: 0 <= i < j < |s| ==> s[i] != s[j]
  {
    forall i, j | 0 <= i < j < |s| ensures s[i] != s[j] {
      BeforeStrict(s[i], s[j]);
    }
  }

  ghost predicate First(m: Place, ps: set<Place>) {
    m in ps && forall p :: p in ps ==> p == m || Before(m, p)
  }

  lemma ElementsEmpty<T>(s: seq<T>)
    ensures Elements(s) == {} <==> s == []
  {
    if s != [] {
      assert s[0] in Elements(s);
    }
  }

  lemma SortedHead(s: seq<Place>, m: Place)
    requires Sorted(s) && s != [] && First(m, Elements(s))
    ensures m == s[0]
    ensures Elements(s[1..]) == Elements(s) - {m}
  {
    assert s[0] in Elements(s);
    var i :| 0 <= i < |s| && s[i] == m;
    SortedNoRepeats(s);
    if i > 0 {
      BeforeStrict(s[0], s[i]);
    }
  }

  lemma {:induction false} SortedUnique(a: seq<Place>, b: seq<Place>)
    requires Sorted(a) && Sorted(b) && Elements(a) == Elements(b)
    ensures a == b
  {
    ElementsEmpty(a);
    ElementsEmpty(b);
    if a != [] {
      var m := FirstExists(Elements(a));
      SortedHead(a, m);
      SortedHead(b, m);
      SortedUnique(a[1..], b[1..]);
      assert a == [a[0]] + a[1..];
      assert b == [b[0]] + b[1..];
    }
  }

  lemma {:induction false} FirstExists(ps: set<Place>) returns (m: Place)
    requires ps != {}
    ensures First(m, ps)
    decreases ps
  {
    m :| m in ps;
    var rest := ps - {m};
    if rest != {} {
      var r := FirstExists(rest);
      BeforeConnected(m, r);
      if Before(m, r) {
        forall p | p in rest ensures Before(m, p) {
          if p != r {
            BeforeTransitive(m, r, p);
          }
        }
      } else {
        assert forall p :: p in ps ==> p == m || p in rest;
        m := r;
      }
    } else {
      assert ps == {m};
    }
  }

  lemma SomeFirst(ps: set<Place>)
    requires ps != {}
    ensures exists m :: First(m, ps)
  {
    var m := FirstExists(ps);
  }

  lemma SortedCons(m: Place, rest: seq<Place>)
    requires Sorted(rest)
    requires forall p :: p in Elements(rest) ==> Before(m, p)
    ensures Sorted([m] + rest)
    ensures Elements([m] + rest) == {m} + Elements(rest)
  {
    assert forall i :: 0 <= i < |rest| ==> rest[i] in Elements(rest);
  }

  /** The one sorted sequence that lists exactly `ps`. */
  ghost function Ranked(ps: set<Place>): (s: seq<Place>)
    ensures Sorted(s) && Elements(s) == ps && |s| == |ps|
  {
    if ps == {} then []
    else
      SomeFirst(ps);
      var m :| First(m, ps);
      var rest := Ranked(ps - {m});
      SortedCons(m, rest);
      [m] + rest
  }

  /** Stands for the library sort: candidates may arrive in any order. */
  method Sort(candidates: seq<Place>) returns (s: seq<Place>)
    requires forall i, j :: 0 <= i < j < |candidates| ==> candidates[i] != candidates[j]
    ensures s == Ranked(Elements(candidates))
  {
    s := [];
    for n := 0 to |candidates|
      invariant Sorted(s) && Elements(s) == Elements(candidates[..n])
    {
      var c := candidates[n];
      var i := 0;
      while i < |s| && Before(s[i], c)
        invariant 0 <= i <= |s|
        invariant forall k :: 0 <= k < i ==> Before(s[k], c)
      {
        i := i + 1;
      }
      assert c !in candidates[..n];
      assert c !in Elements(s);
      InsertSorted(s, c, i);
      s := s[..i] + [c] + s[i..];
      assert candidates[..n + 1] == candidates[..n] + [c];
    }
    assert candidates[..|candidates|] == candidates;
    SortedUnique(s, Ranked(Elements(candidates)));
  }

  lemma InsertSorted(s: seq<Place>, c: Place, i: nat)
    requires Sorted(s) && i <= |s| && c !in s
    requires forall k :: 0 <= k < i ==> Before(s[k], c)
    requires i < |s| ==> !Before(s[i], c)
    ensures Sorted(s[..i] + [c] + s[i..])
    ensures Elements(s[..i] + [c] + s[i..]) == Elements(s) + {c}
  {
    var t := s[..i] + [c] + s[i..];
    forall k | i <= k < |s| ensures Before(c, s[k]) {
      BeforeConnected(c, s[i]);
      if i < k {
        BeforeTransitive(c, s[i], s[k]);
      }
    }
    assert forall x :: x in s ==> x in s[..i] || x in s[i..];
  }
}
