/**
 * Go strings hold bytes, one character a byte here, and need not be valid UTF-8. Encoding them
 * as JSON replaces every byte that starts no valid sequence (section 3 of RFC 3629) by U+FFFD.
 */
module Utf8 {
  import opened Text

  /** U+FFFD in UTF-8. */
  const REPLACEMENT := "\U{EF}\U{BF}\U{BD}"

  predicate Within(s: string, i: nat, low: char, high: char) {
    i < |s| && low <= s[i] <= high
  }

  predicate Continues(s: string, i: nat) {
    Within(s, i, '\U{80}', '\U{BF}')
  }

  /** How many bytes the valid sequence at the front of `s` has; 0 if there is none. */
  function RuneWidth(s: string): (w: nat)
    requires s != ""
    ensures w <= |s| && w <= 4
  {
    var b := s[0];
    if b < '\U{80}' then 1
    else if '\U{C2}' <= b <= '\U{DF}' then if Continues(s, 1) then 2 else 0
    else if '\U{E0}' <= b <= '\U{EF}' then
      var low := if b == '\U{E0}' then '\U{A0}' else '\U{80}';
      var high := if b == '\U{ED}' then '\U{9F}' else '\U{BF}';
      if Within(s, 1, low, high) && Continues(s, 2) then 3 else 0
    else if '\U{F0}' <= b <= '\U{F4}' then
      var low := if b == '\U{F0}' then '\U{90}' else '\U{80}';
      var high := if b == '\U{F4}' then '\U{8F}' else '\U{BF}';
      if Within(s, 1, low, high) && Continues(s, 2) && Continues(s, 3) then 4 else 0
    else 0
  }

  predicate ValidUtf8(s: string)
    decreases |s|
  {
    s != "" ==> RuneWidth(s) > 0 && ValidUtf8(s[RuneWidth(s)..])
  }

  /** What an encoded string reads back as. */
  function Coerce(s: string): string
    decreases |s|
  {
    if s == "" then ""
    else if RuneWidth(s) == 0 then REPLACEMENT + Coerce(s[1..])
    else s[..RuneWidth(s)] + Coerce(s[RuneWidth(s)..])
  }

  predicate Ascii(s: string) {
    forall i :: 0 <= i < |s| ==> s[i] < '\U{80}'
  }

  lemma SamePrefix(s: string, t: string)
    requires s != "" && RuneWidth(s) > 0
    ensures var w := RuneWidth(s); s[..w] + t != "" && RuneWidth(s[..w] + t) == w && (s[..w] + t)[w..] == t
  {
    var w := RuneWidth(s);
    var u := s[..w] + t;
    assert forall i :: 0 <= i < w ==> u[i] == s[i];
  }

  lemma ReplacementFirst(t: string)
    ensures RuneWidth(REPLACEMENT + t) == 3 && (REPLACEMENT + t)[3..] == t
  {
    var u := REPLACEMENT + t;
    assert u[0] == '\U{EF}' && u[1] == '\U{BF}' && u[2] == '\U{BD}';
  }

  lemma {:induction false} CoerceValid(s: string)
    ensures ValidUtf8(Coerce(s))
    decreases |s|
  {
    hide RuneWidth;
    if s != "" {
      if RuneWidth(s) == 0 {
        CoerceValid(s[1..]);
        ReplacementFirst(Coerce(s[1..]));
      } else {
        CoerceValid(s[RuneWidth(s)..]);
        SamePrefix(s, Coerce(s[RuneWidth(s)..]));
      }
    }
  }

  /** Exactly the valid strings survive an encoding unchanged. */
  lemma {:induction false} CoerceFixes(s: string)
    ensures Coerce(s) == s <==> ValidUtf8(s)
    decreases |s|
  {
    if Coerce(s) == s {
      CoerceValid(s);
    }
    ValidKept(s);
  }

  lemma {:induction false} ValidKept(s: string)
    ensures ValidUtf8(s) ==> Coerce(s) == s
    decreases |s|
  {
    hide RuneWidth;
    if s != "" && RuneWidth(s) > 0 {
      ValidKept(s[RuneWidth(s)..]);
      assert s[..RuneWidth(s)] + s[RuneWidth(s)..] == s;
    }
  }

  lemma {:induction false} AsciiValid(s: string)
    requires Ascii(s)
    ensures ValidUtf8(s) && Coerce(s) == s
    decreases |s|
  {
    if s != "" {
      AsciiValid(s[1..]);
      assert [s[0]] + s[1..] == s;
    }
  }

  lemma ReplacedFirst(s: string)
    requires s != "" && RuneWidth(s) == 0
    ensures !Ascii(Coerce(s))
  {
    assert Coerce(s)[0] == '\U{EF}';
  }

  lemma FirstIsValid(s: string)
    requires s != "" && Ascii(Coerce(s))
    ensures RuneWidth(s) > 0
  {
    hide Coerce, Ascii, RuneWidth;
    if RuneWidth(s) == 0 {
      ReplacedFirst(s);
    }
  }

  /** No other string turns into an ASCII one. */
  lemma {:induction false} CoerceAscii(s: string)
    requires Ascii(Coerce(s))
    ensures Coerce(s) == s
    decreases |s|
  {
    hide RuneWidth;
    if s != "" {
      FirstIsValid(s);
      if RuneWidth(s) > 0 {
        var w := RuneWidth(s);
        assert Coerce(s)[w..] == Coerce(s[w..]);
        forall i | 0 <= i < |Coerce(s[w..])| ensures Coerce(s[w..])[i] < '\U{80}' {
          assert Coerce(s)[w + i] == Coerce(s[w..])[i];
        }
        CoerceAscii(s[w..]);
        assert s[..w] + s[w..] == s;
      }
    }
  }

  // ----- the length of an encoded string -----

  /** One valid sequence inside an encoded string. */
  function RuneLength(rune: string): (n: nat)
    requires 1 <= |rune| <= 4
    ensures 1 <= n <= 6
  {
    if |rune| > 1 then if rune == "\U{E2}\U{80}\U{A8}" || rune == "\U{E2}\U{80}\U{A9}" then 6 else |rune|
    else
      var c := rune[0];
      if c == '\"' || c == '\\' || c == '\n' || c == '\r' || c == '\t' || c == '\U{8}' || c == '\U{c}' then 2
      else if c < ' ' || c == '<' || c == '>' || c == '&' then 6
      else 1
  }

  /** A byte of no valid sequence becomes the six characters of its escape. */
  function StringLength(s: string): (n: nat)
    ensures n >= 2
    decreases |s|
  {
    if s == "" then 2
    else if RuneWidth(s) == 0 then 6 + StringLength(s[1..])
    else RuneLength(s[..RuneWidth(s)]) + StringLength(s[RuneWidth(s)..])
  }

  lemma {:induction false} StringLengthBound(s: string)
    ensures StringLength(s) <= 2 + 6 * |s|
    decreases |s|
  {
    hide RuneWidth, RuneLength;
    if s != "" {
      StringLengthBound(s[if RuneWidth(s) == 0 then 1 else RuneWidth(s)..]);
    }
  }

  /** The string that is read back never encodes longer, and encodes alike exactly when it is the same. */
  lemma {:induction false} CoerceLength(s: string)
    ensures StringLength(Coerce(s)) <= StringLength(s)
    ensures StringLength(Coerce(s)) == StringLength(s) <==> ValidUtf8(s)
    decreases |s|
  {
    if s != "" {
      if RuneWidth(s) == 0 {
        CoerceLength(s[1..]);
        ReplacementFirst(Coerce(s[1..]));
        assert (REPLACEMENT + Coerce(s[1..]))[..3] == REPLACEMENT;
      } else {
        var w := RuneWidth(s);
        CoerceLength(s[w..]);
        SamePrefix(s, Coerce(s[w..]));
        assert Coerce(s)[..w] == s[..w];
      }
    }
    hide RuneWidth, RuneLength;
  }

  // ----- keys that collapse -----

  /** Object members are written in the order of their keys, and of several that read back alike the last one stays. */
  predicate Survives(keys: set<string>, k: string) {
    forall j :: j in keys && Coerce(j) == Coerce(k) ==> j == k || Less(j, k)
  }

  lemma SurvivorsDiffer(keys: set<string>)
    ensures forall j, k :: j in keys && k in keys && Survives(keys, j) && Survives(keys, k) && Coerce(j) == Coerce(k) ==> j == k
  {
    forall j, k | j in keys && k in keys && Survives(keys, j) && Survives(keys, k) && Coerce(j) == Coerce(k) ensures j == k {
      if j != k {
        LessTransitive(j, k, j);
        LessIrreflexive(j);
      }
    }
  }

  /** Every key has a survivor that reads back as it does. */
  lemma {:induction false} SomeSurvivor(keys: set<string>, k: string) returns (j: string)
    requires k in keys
    ensures j in keys && Coerce(j) == Coerce(k) && Survives(keys, j)
    decreases set i | i in keys && Coerce(i) == Coerce(k) && Less(k, i)
  {
    hide Coerce, Less;
    if Survives(keys, k) {
      j := k;
    } else {
      var i :| i in keys && Coerce(i) == Coerce(k) && i != k && !Less(i, k);
      LessConnected(i, k);
      var above := set i | i in keys && Coerce(i) == Coerce(k) && Less(k, i);
      var next := set h | h in keys && Coerce(h) == Coerce(i) && Less(i, h);
      forall h | h in next ensures h in above {
        LessTransitive(k, i, h);
      }
      LessIrreflexive(i);
      assert i in above && i !in next;
      j := SomeSurvivor(keys, i);
    }
  }

  lemma ValidSurvives(keys: set<string>, k: string)
    requires forall j :: j in keys ==> ValidUtf8(j)
    requires k in keys
    ensures Survives(keys, k) && Coerce(k) == k
  {
    hide Coerce, ValidUtf8;
    forall j | j in keys ensures Coerce(j) == j {
      CoerceFixes(j);
    }
  }

  lemma AsciiSurvives(keys: set<string>, k: string)
    requires Ascii(k)
    ensures Survives(keys, k) && Coerce(k) == k
  {
    AsciiValid(k);
    forall j | j in keys && Coerce(j) == k ensures j == k {
      CoerceAscii(j);
    }
    hide Coerce;
  }

  /** For each key that is read back, the key that its value came from. */
  function Origins(keys: set<string>): (from: map<string, string>)
    ensures forall x :: x in from ==> from[x] in keys && Survives(keys, from[x]) && Coerce(from[x]) == x
    ensures forall k :: k in keys && Survives(keys, k) ==> Coerce(k) in from && from[Coerce(k)] == k
  {
    SurvivorsDiffer(keys);
    map k | k in keys && Survives(keys, k) :: Coerce(k) := k
  }

  lemma OriginsOfValid(keys: set<string>)
    requires forall k :: k in keys ==> ValidUtf8(k)
    ensures Origins(keys) == map k | k in keys :: k
  {
    forall k | k in keys ensures Survives(keys, k) && Coerce(k) == k {
      ValidSurvives(keys, k);
    }
    hide Survives, Coerce, ValidUtf8;
    var from := Origins(keys);
    hide Origins;
    assert forall x :: x in from ==> from[x] == x;
    assert forall k :: k in keys ==> k in from;
  }

  lemma OriginOfAscii(keys: set<string>, k: string)
    requires Ascii(k)
    ensures k in Origins(keys) <==> k in keys
    ensures k in keys ==> Origins(keys)[k] == k
  {
    AsciiSurvives(keys, k);
    if k in Origins(keys) {
      CoerceAscii(Origins(keys)[k]);
    }
    hide Survives, Coerce, Ascii, Origins;
  }
}
