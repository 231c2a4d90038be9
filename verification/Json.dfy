/**
 * The Go values that the API server keeps and passes around: what `map[string]any`
 * holds after a JSON, YAML or protobuf body was decoded.
 */
module Json {
  import opened Sums
  import opened Text
  import opened Utf8

  /**
   * A number and the digits encoding/json prints for it. A Go integer becomes a float64
   * when its encoding is decoded again; `asFloat` is what that float64 prints as.
   * Rounding to 53 bits never loses a digit, but may carry into a new one.
   */
  datatype RawNumber = Float(text: string) | Integer(text: string, asFloat: string)
  type Number = n: RawNumber | n.Integer? ==> |n.text| <= |n.asFloat| witness Float("0")

  /** Texts is Go's `map[string]string`, which is not a `map[string]any` until it has been encoded and decoded. */
  datatype Json =
    | Null
    | Bool(b: bool)
    | Num(number: Number)
    | Str(text: string)
    | Arr(items: seq<Json>)
    | Obj(members: map<string, Json>)
    | Texts(texts: map<string, string>)

  type Object = map<string, Json>

  /** objectMap: the members of an object value, none for any other value. */
  function ObjectMap(j: Json): Object {
    if j.Obj? then j.members else map[]
  }

  /** Go's map lookup: a missing key reads as nil. */
  function Member(o: Object, key: string): Json {
    if key in o then o[key] else Null
  }

  /** `value, present = o[key].(string)` */
  function TextOf(o: Object, key: string): (string, bool) {
    if Member(o, key).Str? then (Member(o, key).text, true) else ("", false)
  }

  /** What a path through objects leads to, or nothing. */
  function AtPath(j: Json, path: seq<string>): Json {
    if path == [] then j else if j.Obj? && path[0] in j.members then AtPath(j.members[path[0]], path[1..]) else Null
  }

  /** The members a typed map has once it is decoded. */
  function AsObject(t: map<string, string>): Object {
    map k | k in t :: Str(t[k])
  }

  // ----- cloneObject: encode, then decode -----

  function CloneNumber(n: Number): Number {
    if n.Integer? then Float(n.asFloat) else n
  }

  /** Invalid bytes are replaced, in keys too; of keys that then collide the last one is kept. */
  function Clone(j: Json): (c: Json)
    ensures j.Obj? ==> c.Obj?
  {
    match j
    case Num(n) => Num(CloneNumber(n))
    case Str(s) => Str(Coerce(s))
    case Arr(xs) => Arr(seq(|xs|, i requires 0 <= i < |xs| => Clone(xs[i])))
    case Obj(m) =>
      var from := Origins(m.Keys);
      Obj(map x | x in from :: Clone(m[from[x]]))
    case Texts(t) =>
      var from := Origins(t.Keys);
      Obj(map x | x in from :: Str(Coerce(t[from[x]])))
    case _ => j
  }

  /** The decoder's limit on nested objects and arrays; the encoder has none. */
  const MAX_NESTING := 10000

  /** Objects and arrays nest at most `depth` deep. */
  predicate NestsWithin(j: Json, depth: nat)
    decreases j
  {
    match j
    case Arr(xs) => depth > 0 && forall i :: 0 <= i < |xs| ==> NestsWithin(xs[i], depth - 1)
    case Obj(m) => depth > 0 && forall k :: k in m ==> NestsWithin(m[k], depth - 1)
    case Texts(_) => depth > 0
    case _ => true
  }

  /** The encoding can be decoded again. */
  predicate Readable(o: Object) {
    NestsWithin(Obj(o), MAX_NESTING)
  }

  /** What decoding an object's encoding gives. */
  function Reread(o: Object): Object {
    Clone(Obj(o)).members
  }

  /** An object that cannot be decoded again is copied to an empty one. */
  function CloneObject(o: Object): Object {
    if Readable(o) then Reread(o) else map[]
  }

  /** What a decoder makes: floats, valid text, and no typed maps. */
  ghost predicate Decoded(j: Json) {
    match j
    case Num(n) => n.Float?
    case Str(s) => ValidUtf8(s)
    case Arr(xs) => forall i :: 0 <= i < |xs| ==> Decoded(xs[i])
    case Obj(m) => forall k :: k in m ==> ValidUtf8(k) && Decoded(m[k])
    case Texts(_) => false
    case _ => true
  }

  ghost predicate ValidText(j: Json) {
    match j
    case Str(s) => ValidUtf8(s)
    case Arr(xs) => forall i :: 0 <= i < |xs| ==> ValidText(xs[i])
    case Obj(m) => forall k :: k in m ==> ValidUtf8(k) && ValidText(m[k])
    case Texts(t) => forall k :: k in t ==> ValidUtf8(k) && ValidUtf8(t[k])
    case _ => true
  }

  /** No typed maps. */
  ghost predicate Untyped(j: Json) {
    match j
    case Arr(xs) => forall i :: 0 <= i < |xs| ==> Untyped(xs[i])
    case Obj(m) => forall k :: k in m ==> Untyped(m[k])
    case Texts(_) => false
    case _ => true
  }

  lemma {:induction false} CloneDecoded(j: Json)
    ensures Decoded(Clone(j))
  {
    match j
    case Str(s) => CoerceValid(s);
    case Arr(xs) =>
      forall i | 0 <= i < |xs| ensures Decoded(Clone(xs[i])) {
        CloneDecoded(xs[i]);
      }
    case Obj(m) =>
      forall k | k in m ensures Decoded(Clone(m[k])) {
        CloneDecoded(m[k]);
      }
      MembersDecoded(m);
    case Texts(t) => TextsDecoded(t);
    case _ =>
  }

  lemma MembersDecoded(m: Object)
    requires forall k :: k in m ==> Decoded(Clone(m[k]))
    ensures Decoded(Clone(Obj(m)))
  {
    hide Coerce, ValidUtf8, Survives, Origins;
    var from := Origins(m.Keys);
    forall x | x in from ensures Decoded(Clone(m[from[x]])) && ValidUtf8(x) {
      CoerceValid(from[x]);
    }
  }

  lemma TextsDecoded(t: map<string, string>)
    ensures Decoded(Clone(Texts(t)))
  {
    hide Coerce, ValidUtf8, Survives, Origins;
    var from := Origins(t.Keys);
    forall x | x in from ensures ValidUtf8(Coerce(t[from[x]])) && ValidUtf8(x) {
      CoerceValid(t[from[x]]);
      CoerceValid(from[x]);
    }
  }

  /** A copy is the value itself exactly when the value was decoded already. */
  lemma {:induction false} CloneFixes(j: Json)
    ensures Clone(j) == j <==> Decoded(j)
  {
    if Clone(j) == j {
      CloneDecoded(j);
    }
    DecodedKept(j);
  }

  lemma {:induction false} DecodedKept(j: Json)
    ensures Decoded(j) ==> Clone(j) == j
  {
    if Decoded(j) {
      match j
      case Str(s) => CoerceFixes(s);
      case Arr(xs) =>
        forall i | 0 <= i < |xs| ensures Clone(xs[i]) == xs[i] {
          DecodedKept(xs[i]);
        }
      case Obj(m) =>
        hide Coerce, ValidUtf8, Survives, Origins;
        OriginsOfValid(m.Keys);
        forall k | k in m ensures Clone(m[k]) == m[k] {
          DecodedKept(m[k]);
        }
        assert Clone(j).members == m;
      case _ =>
    }
  }

  lemma {:induction false} CloneNests(j: Json, depth: nat)
    requires NestsWithin(j, depth)
    ensures NestsWithin(Clone(j), depth)
    decreases j
  {
    match j
    case Arr(xs) =>
      forall i | 0 <= i < |xs| ensures NestsWithin(Clone(xs[i]), depth - 1) {
        CloneNests(xs[i], depth - 1);
      }
    case Obj(m) =>
      hide Coerce, Survives, Origins;
      forall k | k in m ensures NestsWithin(Clone(m[k]), depth - 1) {
        CloneNests(m[k], depth - 1);
      }
    case _ =>
  }

  lemma RereadObject(o: Object)
    ensures Clone(Obj(o)) == Obj(Reread(o))
  {
  }

  lemma CopyOfNothing()
    ensures Readable(map[]) && Reread(map[]) == map[] && Decoded(Obj(map[]))
  {
  }

  lemma CloneObjectTwice(o: Object)
    ensures CloneObject(CloneObject(o)) == CloneObject(o)
  {
    hide Clone, Decoded, NestsWithin;
    CopyOfNothing();
    RereadObject(o);
    CloneDecoded(Obj(o));
    CloneFixes(Clone(Obj(o)));
    if Readable(o) {
      CloneNests(Obj(o), MAX_NESTING);
      RereadObject(Reread(o));
    }
  }

  /** An object is its own copy exactly when it is what a decoder makes. */
  lemma CopyFixes(o: Object)
    ensures CloneObject(o) == o <==> Decoded(Obj(o)) && Readable(o)
  {
    hide Clone, Decoded, NestsWithin;
    CopyOfNothing();
    RereadObject(o);
    CloneFixes(Obj(o));
  }

  /** A copy's member under an ASCII key is the copy of the member. */
  lemma CloneMember(o: Object, key: string)
    requires Ascii(key)
    ensures Member(Reread(o), key) == Clone(Member(o, key))
    ensures key in Reread(o) <==> key in o
  {
    hide Coerce, Survives, Ascii, Origins;
    OriginOfAscii(o.Keys, key);
  }

  // ----- len(json.Marshal(v)) -----

  ghost function ItemsLength(xs: seq<Json>): (n: nat) {
    if xs == [] then 0
    else EncodedLength(xs[0]) + (if |xs| > 1 then 1 else 0) + ItemsLength(xs[1..])
  }

  ghost function MemberLengths(j: Json): (w: map<string, int>)
    requires j.Obj?
    ensures w.Keys == j.members.Keys && forall k :: k in w ==> w[k] >= 0
    decreases j, 0
  {
    map k | k in j.members :: StringLength(k) + 1 + EncodedLength(j.members[k])
  }

  function TextLengths(t: map<string, string>): (w: map<string, int>)
    ensures w.Keys == t.Keys && forall k :: k in w ==> w[k] >= 0
  {
    map k | k in t :: StringLength(k) + 1 + StringLength(t[k])
  }

  function Commas(n: nat): nat {
    if n > 1 then n - 1 else 0
  }

  ghost function EncodedLength(j: Json): (n: nat)
    decreases j, 1
  {
    match j
    case Null => 4
    case Bool(b) => if b then 4 else 5
    case Num(n) => |n.text|
    case Str(s) => StringLength(s)
    case Arr(xs) => 2 + ItemsLength(xs)
    case Obj(m) =>
      var w := MemberLengths(j);
      TotalNonNegative(w);
      2 + Total(w) + Commas(|m|)
    case Texts(t) =>
      TotalNonNegative(TextLengths(t));
      2 + Total(TextLengths(t)) + Commas(|t|)
  }

  /** Every integer prints as many digits as its float64 image. */
  ghost predicate StableNumbers(j: Json) {
    match j
    case Num(n) => n.Integer? ==> |n.text| == |n.asFloat|
    case Arr(xs) => forall i :: 0 <= i < |xs| ==> StableNumbers(xs[i])
    case Obj(m) => forall k :: k in m ==> StableNumbers(m[k])
    case _ => true
  }

  lemma {:induction false} CloneItemsLength(xs: seq<Json>, ys: seq<Json>)
    requires |xs| == |ys|
    requires forall i :: 0 <= i < |xs| ==> EncodedLength(xs[i]) <= EncodedLength(ys[i])
    ensures ItemsLength(xs) <= ItemsLength(ys)
    ensures ItemsLength(xs) == ItemsLength(ys) <==> forall i :: 0 <= i < |xs| ==> EncodedLength(xs[i]) == EncodedLength(ys[i])
  {
    hide EncodedLength;
    if xs != [] {
      CloneItemsLength(xs[1..], ys[1..]);
      assert forall i :: 0 < i < |xs| ==> xs[i] == xs[1..][i - 1] && ys[i] == ys[1..][i - 1];
      if ItemsLength(xs) == ItemsLength(ys) {
        forall i | 0 <= i < |xs| ensures EncodedLength(xs[i]) == EncodedLength(ys[i]) {
          assert i > 0 ==> xs[i] == xs[1..][i - 1] && ys[i] == ys[1..][i - 1];
        }
      }
    }
  }

  lemma SingletonLength(k: string, v: Json)
    ensures EncodedLength(Obj(map[k := v])) == 3 + StringLength(k) + EncodedLength(v)
  {
    var w := MemberLengths(Obj(map[k := v]));
    TotalExtract(w, k);
    assert w - {k} == map[];
  }

  lemma PairLength(j: string, u: Json, k: string, v: Json)
    requires j != k
    ensures EncodedLength(Obj(map[j := u, k := v])) == 5 + StringLength(j) + EncodedLength(u) + StringLength(k) + EncodedLength(v)
  {
    var m := map[j := u, k := v];
    var w := MemberLengths(Obj(m));
    assert w.Keys == {j, k};
    TotalExtract(w, j);
    TotalExtract(w - {j}, k);
    assert w - {j} - {k} == map[];
    assert |m.Keys| == |{j, k}| == 2;
  }

  lemma MemberWeight(o: Object, k: string)
    requires k in o
    ensures MemberLengths(Obj(o))[k] == StringLength(k) + 1 + EncodedLength(o[k])
  {
    hide EncodedLength, StringLength;
  }

  lemma UpdateWeights(o: Object, k: string, v: Json)
    ensures MemberLengths(Obj(o[k := v])) == MemberLengths(Obj(o))[k := StringLength(k) + 1 + EncodedLength(v)]
  {
    hide EncodedLength, MemberLengths, StringLength;
    var x, y := MemberLengths(Obj(o[k := v])), MemberLengths(Obj(o))[k := StringLength(k) + 1 + EncodedLength(v)];
    assert x.Keys == y.Keys;
    forall j | j in x ensures x[j] == y[j] {
      MemberWeight(o[k := v], j);
      if j != k {
        MemberWeight(o, j);
      }
    }
  }

  lemma ObjectLengthParts(o: Object)
    ensures EncodedLength(Obj(o)) == 2 + Total(MemberLengths(Obj(o))) + Commas(|o|)
  {
    hide MemberLengths;
  }

  /** Writing one member lengthens the encoding by at most that member. */
  lemma UpdateLength(o: Object, k: string, v: Json)
    ensures EncodedLength(Obj(o[k := v])) <= EncodedLength(Obj(o)) + 6 * |k| + 4 + EncodedLength(v)
  {
    hide EncodedLength, MemberLengths, StringLength;
    StringLengthBound(k);
    UpdateWeights(o, k, v);
    ObjectLengthParts(o);
    ObjectLengthParts(o[k := v]);
    TotalUpdate(MemberLengths(Obj(o)), k, StringLength(k) + 1 + EncodedLength(v));
  }

  lemma MemberLengthBound(o: Object, key: nat, value: nat)
    requires forall k :: k in o ==> |k| <= key && EncodedLength(o[k]) <= value
    ensures Total(MemberLengths(Obj(o))) <= |o| * (6 * key + value + 3)
  {
    hide EncodedLength, MemberLengths, StringLength;
    var w, bound := MemberLengths(Obj(o)), 6 * key + value + 3;
    forall k | k in w ensures w[k] <= bound {
      MemberWeight(o, k);
      StringLengthBound(k);
    }
    TotalBound(w, bound);
    assert |w| == |w.Keys| == |o.Keys| == |o|;
  }

  lemma ScaleUp(size: nat, n: nat, bound: nat)
    requires size <= n
    ensures size * bound + size <= n * (bound + 1)
  {
  }

  /** An object of at most `n` members with short keys and short values. */
  lemma ObjectLengthBound(o: Object, n: nat, key: nat, value: nat)
    requires |o| <= n && forall k :: k in o ==> |k| <= key && EncodedLength(o[k]) <= value
    ensures EncodedLength(Obj(o)) <= 2 + n * (6 * key + value + 4)
  {
    hide EncodedLength, MemberLengths;
    MemberLengthBound(o, key, value);
    ObjectLengthParts(o);
    ScaleUp(|o|, n, 6 * key + value + 3);
  }

  // ----- how long a copy encodes -----

  lemma TextsLength(t: map<string, string>)
    ensures EncodedLength(Texts(t)) == EncodedLength(Obj(AsObject(t)))
  {
    var o := AsObject(t);
    forall k | k in t ensures MemberLengths(Obj(o))[k] == TextLengths(t)[k] {
      MemberWeight(o, k);
    }
    assert MemberLengths(Obj(o)) == TextLengths(t);
    assert |o.Keys| == |t.Keys|;
    ObjectLengthParts(o);
  }

  /** With valid keys a copy keeps them all. */
  lemma ValidMembers(m: Object)
    requires forall k :: k in m ==> ValidUtf8(k)
    ensures Reread(m) == map k | k in m :: Clone(m[k])
  {
    hide Survives, Coerce, ValidUtf8, Origins;
    OriginsOfValid(m.Keys);
  }

  lemma ValidTexts(t: map<string, string>)
    requires ValidText(Texts(t))
    ensures Clone(Texts(t)) == Obj(AsObject(t))
  {
    hide Survives, Coerce, ValidUtf8, Origins;
    OriginsOfValid(t.Keys);
    forall k | k in t ensures Coerce(t[k]) == t[k] {
      CoerceFixes(t[k]);
    }
  }

  lemma MembersLonger(m: Object, n: Object)
    requires m.Keys == n.Keys && forall k :: k in m ==> EncodedLength(m[k]) <= EncodedLength(n[k])
    ensures EncodedLength(Obj(m)) <= EncodedLength(Obj(n))
    ensures EncodedLength(Obj(m)) == EncodedLength(Obj(n)) <==> forall k :: k in m ==> EncodedLength(m[k]) == EncodedLength(n[k])
  {
    hide EncodedLength, MemberLengths, StringLength;
    var w, v := MemberLengths(Obj(m)), MemberLengths(Obj(n));
    forall k | k in m ensures w[k] <= v[k] && (w[k] == v[k] <==> EncodedLength(m[k]) == EncodedLength(n[k])) {
      MemberWeight(m, k);
      MemberWeight(n, k);
    }
    TotalMonotone(w, v);
    ObjectLengthParts(m);
    ObjectLengthParts(n);
    assert |m.Keys| == |m| && |n.Keys| == |n|;
  }

  /** Of a value with valid text the copy never encodes shorter, and encodes alike exactly when the numbers are stable. */
  lemma {:induction false} CloneLength(j: Json)
    requires ValidText(j)
    ensures EncodedLength(j) <= EncodedLength(Clone(j))
    ensures EncodedLength(j) == EncodedLength(Clone(j)) <==> StableNumbers(j)
  {
    match j
    case Str(s) => CoerceFixes(s);
    case Arr(xs) =>
      forall i | 0 <= i < |xs|
        ensures EncodedLength(xs[i]) <= EncodedLength(Clone(xs[i]))
        ensures EncodedLength(xs[i]) == EncodedLength(Clone(xs[i])) <==> StableNumbers(xs[i])
      {
        CloneLength(xs[i]);
      }
      CloneItemsLength(xs, Clone(j).items);
    case Obj(m) =>
      forall k | k in m
        ensures EncodedLength(m[k]) <= EncodedLength(Clone(m[k]))
        ensures EncodedLength(m[k]) == EncodedLength(Clone(m[k])) <==> StableNumbers(m[k])
      {
        CloneLength(m[k]);
      }
      MembersNoShorter(m);
    case Texts(t) =>
      ValidTexts(t);
      TextsLength(t);
    case _ =>
  }

  lemma StableMembers(m: Object)
    ensures StableNumbers(Obj(m)) <==> forall k :: k in m ==> StableNumbers(m[k])
  {
  }

  lemma ValidTextMembers(m: Object)
    ensures ValidText(Obj(m)) <==> forall k :: k in m ==> ValidUtf8(k) && ValidText(m[k])
  {
  }

  lemma MembersNoShorter(m: Object)
    requires ValidText(Obj(m))
    requires forall k :: k in m ==> EncodedLength(m[k]) <= EncodedLength(Clone(m[k]))
    requires forall k :: k in m ==> (EncodedLength(m[k]) == EncodedLength(Clone(m[k])) <==> StableNumbers(m[k]))
    ensures EncodedLength(Obj(m)) <= EncodedLength(Clone(Obj(m)))
    ensures EncodedLength(Obj(m)) == EncodedLength(Clone(Obj(m))) <==> StableNumbers(Obj(m))
  {
    hide EncodedLength, ValidUtf8, Clone, Reread, StableNumbers, ValidText;
    ValidTextMembers(m);
    ValidMembers(m);
    RereadObject(m);
    StableMembers(m);
    MembersLonger(m, Reread(m));
  }

  lemma MembersCarry(w: map<string, int>, n: Object, from: map<string, string>)
    requires from == Origins(w.Keys) && from.Keys == n.Keys
    requires forall k :: k in w ==> 1 <= w[k]
    requires forall x :: x in n ==> from[x] in w && StringLength(x) + 1 + EncodedLength(n[x]) <= w[from[x]]
    ensures Carries(MemberLengths(Obj(n)), w, from)
    ensures forall x :: x in n ==> MemberLengths(Obj(n))[x] == StringLength(x) + 1 + EncodedLength(n[x])
  {
    hide EncodedLength, MemberLengths, StringLength, Coerce, Survives, Origins;
    forall x | x in n ensures MemberLengths(Obj(n))[x] == StringLength(x) + 1 + EncodedLength(n[x]) {
      MemberWeight(n, x);
    }
  }

  lemma CarriedFrom(v: map<string, int>, w: map<string, int>, from: map<string, string>, k: string)
    requires k in w && from == Origins(w.Keys) && CarriedWhole(v, w, from, k)
    ensures Coerce(k) in v && Coerce(k) in from && from[Coerce(k)] == k && v[Coerce(k)] == w[k]
  {
    hide Coerce, Survives, Origins;
  }

  /** The lengths of a copy's members under the keys they came from. */
  lemma MembersInto(w: map<string, int>, n: Object, from: map<string, string>)
    requires from == Origins(w.Keys) && from.Keys == n.Keys
    requires forall k :: k in w ==> 1 <= w[k]
    requires forall x :: x in n ==> from[x] in w && StringLength(x) + 1 + EncodedLength(n[x]) <= w[from[x]]
    ensures EncodedLength(Obj(n)) <= 2 + Total(w) + Commas(|w|)
    ensures EncodedLength(Obj(n)) == 2 + Total(w) + Commas(|w|) ==>
      forall k :: k in w ==> Coerce(k) in n && from[Coerce(k)] == k && StringLength(Coerce(k)) + 1 + EncodedLength(n[Coerce(k)]) == w[k]
  {
    hide EncodedLength, MemberLengths, StringLength, Coerce, Survives, Origins, Carries, CarriedWhole;
    var v := MemberLengths(Obj(n));
    MembersCarry(w, n, from);
    TotalInto(v, w, from);
    ObjectLengthParts(n);
    assert |v| == |v.Keys| == |n.Keys| == |n|;
    if EncodedLength(Obj(n)) == 2 + Total(w) + Commas(|w|) {
      TotalIntoExact(v, w, from);
      forall k | k in w ensures Coerce(k) in n && from[Coerce(k)] == k && v[Coerce(k)] == w[k] {
        CarriedFrom(v, w, from, k);
      }
    }
  }

  /** With stable numbers the copy never encodes longer, and encodes alike exactly when all text is valid. */
  lemma {:induction false} CloneNoLonger(j: Json)
    requires StableNumbers(j)
    ensures EncodedLength(Clone(j)) <= EncodedLength(j)
    ensures EncodedLength(Clone(j)) == EncodedLength(j) <==> ValidText(j)
  {
    match j
    case Str(s) => CoerceLength(s);
    case Arr(xs) =>
      forall i | 0 <= i < |xs|
        ensures EncodedLength(Clone(xs[i])) <= EncodedLength(xs[i])
        ensures EncodedLength(Clone(xs[i])) == EncodedLength(xs[i]) <==> ValidText(xs[i])
      {
        CloneNoLonger(xs[i]);
      }
      CloneItemsLength(Clone(j).items, xs);
    case Obj(m) =>
      forall k | k in m
        ensures EncodedLength(Clone(m[k])) <= EncodedLength(m[k])
        ensures EncodedLength(Clone(m[k])) == EncodedLength(m[k]) <==> ValidText(m[k])
      {
        CloneNoLonger(m[k]);
      }
      MembersNoLonger(m);
    case Texts(t) => TextsNoLonger(t);
    case _ =>
  }

  lemma CloneMembers(m: Object)
    ensures Reread(m).Keys == Origins(m.Keys).Keys
    ensures forall x :: x in Reread(m) ==> Reread(m)[x] == Clone(m[Origins(m.Keys)[x]])
  {
    hide Origins, Survives, Coerce;
  }

  /** One member of a copy that does not encode longer. */
  lemma MemberNoLonger(m: Object, k: string)
    requires k in m && EncodedLength(Clone(m[k])) <= EncodedLength(m[k])
    requires EncodedLength(Clone(m[k])) == EncodedLength(m[k]) <==> ValidText(m[k])
    ensures StringLength(Coerce(k)) + 1 + EncodedLength(Clone(m[k])) <= MemberLengths(Obj(m))[k]
    ensures StringLength(Coerce(k)) + 1 + EncodedLength(Clone(m[k])) == MemberLengths(Obj(m))[k] <==> ValidUtf8(k) && ValidText(m[k])
  {
    hide EncodedLength, MemberLengths, StringLength, Coerce, Clone, ValidUtf8, ValidText;
    MemberWeight(m, k);
    CoerceLength(k);
  }

  lemma MembersNoLonger(m: Object)
    requires StableNumbers(Obj(m))
    requires forall k :: k in m ==> EncodedLength(Clone(m[k])) <= EncodedLength(m[k])
    requires forall k :: k in m ==> (EncodedLength(Clone(m[k])) == EncodedLength(m[k]) <==> ValidText(m[k]))
    ensures EncodedLength(Clone(Obj(m))) <= EncodedLength(Obj(m))
    ensures EncodedLength(Clone(Obj(m))) == EncodedLength(Obj(m)) <==> ValidText(Obj(m))
  {
    hide EncodedLength, MemberLengths, StringLength, Clone, Reread, Coerce, Survives, Origins, StableNumbers, ValidUtf8, ValidText;
    var w, n := MemberLengths(Obj(m)), Reread(m);
    RereadObject(m);
    CloneMembers(m);
    ObjectLengthParts(m);
    ValidTextMembers(m);
    assert |w| == |w.Keys| == |m.Keys| == |m|;
    forall k | k in m
      ensures 1 <= w[k]
      ensures StringLength(Coerce(k)) + 1 + EncodedLength(Clone(m[k])) <= w[k]
      ensures StringLength(Coerce(k)) + 1 + EncodedLength(Clone(m[k])) == w[k] <==> ValidUtf8(k) && ValidText(m[k])
    {
      MemberNoLonger(m, k);
    }
    MembersInto(w, n, Origins(m.Keys));
    if ValidText(Obj(m)) {
      CloneLength(Obj(m));
    }
    if EncodedLength(Obj(n)) == EncodedLength(Obj(m)) {
      forall k | k in m ensures ValidUtf8(k) && ValidText(m[k]) {
        assert k in w && n[Coerce(k)] == Clone(m[k]);
      }
    }
  }

  lemma TextsCopied(t: map<string, string>)
    ensures Clone(Texts(t)) == Clone(Obj(AsObject(t)))
    ensures ValidText(Texts(t)) <==> ValidText(Obj(AsObject(t)))
    ensures StableNumbers(Obj(AsObject(t)))
  {
    TextsReread(t);
    hide Coerce, Survives, Origins, ValidUtf8, Clone;
    assert AsObject(t).Keys == t.Keys;
  }

  lemma TextsReread(t: map<string, string>)
    ensures Clone(Texts(t)) == Clone(Obj(AsObject(t)))
  {
    hide Coerce, Survives, Origins;
    var o := AsObject(t);
    assert o.Keys == t.Keys;
    forall k | k in t ensures Clone(o[k]) == Str(Coerce(t[k])) {
    }
    CloneMembers(o);
    RereadObject(o);
    assert Clone(Texts(t)).members == Reread(o);
  }

  lemma TextsNoLonger(t: map<string, string>)
    ensures EncodedLength(Clone(Texts(t))) <= EncodedLength(Texts(t))
    ensures EncodedLength(Clone(Texts(t))) == EncodedLength(Texts(t)) <==> ValidText(Texts(t))
  {
    var o := AsObject(t);
    TextsCopied(t);
    TextsLength(t);
    forall k | k in o
      ensures EncodedLength(Clone(o[k])) <= EncodedLength(o[k])
      ensures EncodedLength(Clone(o[k])) == EncodedLength(o[k]) <==> ValidText(o[k])
    {
      CoerceLength(t[k]);
    }
    hide EncodedLength, Clone, ValidText, StableNumbers;
    MembersNoLonger(o);
  }
}
