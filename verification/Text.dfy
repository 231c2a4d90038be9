/** Strings as the program's library calls see them: decimal printing, bytewise order, cutting and joining. */
module Text {

  // ----- decimal numbers (strconv.FormatUint, fmt %020d) -----

  function Digit(d: nat): (c: char)
    requires d < 10
    ensures '0' <= c <= '9'
  {
    '0' + d as char
  }

  function Decimal(n: nat): (s: string)
    ensures |s| >= 1
  {
    if n < 10 then [Digit(n)] else Decimal(n / 10) + [Digit(n % 10)]
  }

  function HexDigit(d: nat): char
    requires d < 16
  {
    "0123456789abcdef"[d]
  }

  /** The number a digit string denotes; leading zeros are allowed. */
  function DecimalValue(s: string): nat {
    if s == [] then 0
    else
      var c := s[|s| - 1];
      10 * DecimalValue(s[..|s| - 1]) + (if '0' <= c <= '9' then (c - '0') as nat else 0)
  }

  lemma {:induction false} DecimalRoundTrip(n: nat)
    ensures DecimalValue(Decimal(n)) == n
    ensures forall i :: 0 <= i < |Decimal(n)| ==> '0' <= Decimal(n)[i] <= '9'
  {
    if n >= 10 {
      DecimalRoundTrip(n / 10);
      assert Decimal(n)[..|Decimal(n)| - 1] == Decimal(n / 10);
    }
  }

  lemma DecimalInjective(m: nat, n: nat)
    requires Decimal(m) == Decimal(n)
    ensures m == n
  {
    DecimalRoundTrip(m);
    DecimalRoundTrip(n);
  }

  function Power10(k: nat): (p: nat)
    ensures p >= 1
  {
    if k == 0 then 1 else 10 * Power10(k - 1)
  }

  lemma {:induction false} DecimalLength(n: nat, width: nat)
    requires width >= 1 && n < Power10(width)
    ensures |Decimal(n)| <= width
    decreases width
  {
    if n >= 10 {
      DecimalLength(n / 10, width - 1);
    }
  }

  function Zeros(k: nat): (s: string)
    ensures |s| == k && forall i :: 0 <= i < k ==> s[i] == '0'
  {
    if k == 0 then "" else Zeros(k - 1) + "0"
  }

  lemma {:induction false} ZerosAddNothing(k: nat, s: string)
    ensures DecimalValue(Zeros(k) + s) == DecimalValue(s)
    decreases |s|, k
  {
    var t := Zeros(k) + s;
    if s == [] {
      assert t == Zeros(k);
      if k > 0 {
        assert t[..k - 1] == Zeros(k - 1);
        ZerosAddNothing(k - 1, []);
        assert Zeros(k - 1) + [] == Zeros(k - 1);
      }
    } else {
      assert t[..|t| - 1] == Zeros(k) + s[..|s| - 1];
      ZerosAddNothing(k, s[..|s| - 1]);
    }
  }

  /** `%020d`: zero padding to the given width, never truncation. */
  function Padded(n: nat, width: nat): (s: string)
    ensures |s| >= width
  {
    var d := Decimal(n);
    if |d| >= width then d else Zeros(width - |d|) + d
  }

  lemma PaddedInjective(m: nat, n: nat, width: nat)
    requires Padded(m, width) == Padded(n, width)
    ensures m == n
  {
    hide Decimal, DecimalValue, Zeros;
    DecimalRoundTrip(m);
    DecimalRoundTrip(n);
    if |Decimal(m)| < width {
      ZerosAddNothing(width - |Decimal(m)|, Decimal(m));
    }
    if |Decimal(n)| < width {
      ZerosAddNothing(width - |Decimal(n)|, Decimal(n));
    }
  }

  lemma PaddedLength(n: nat, width: nat)
    requires width >= 1 && n < Power10(width)
    ensures |Padded(n, width)| == width
  {
    DecimalLength(n, width);
  }

  // ----- Go string order, byte by byte -----

  predicate Less(a: string, b: string) {
    b != [] && (a == [] || a[0] < b[0] || (a[0] == b[0] && Less(a[1..], b[1..])))
  }

  lemma {:induction false} LessIrreflexive(a: string)
    ensures !Less(a, a)
  {
    if a != [] {
      LessIrreflexive(a[1..]);
    }
  }

  lemma {:induction false} LessTransitive(a: string, b: string, c: string)
    requires Less(a, b) && Less(b, c)
    ensures Less(a, c)
  {
    if a != [] && a[0] == b[0] && b[0] == c[0] {
      LessTransitive(a[1..], b[1..], c[1..]);
    }
  }

  lemma {:induction false} LessConnected(a: string, b: string)
    ensures Less(a, b) || a == b || Less(b, a)
  {
    if a != [] && b != [] && a[0] == b[0] {
      LessConnected(a[1..], b[1..]);
      assert a == [a[0]] + a[1..];
      assert b == [b[0]] + b[1..];
    }
  }

  /** The first byte in which two strings differ decides, or else their lengths. */
  lemma {:induction false} LessExactly(a: string, b: string)
    ensures Less(a, b) <==> exists i: nat :: CommonUpTo(a, b, i) && (i == |a| || a[i] < b[i])
  {
    if b != [] && a != [] && a[0] == b[0] {
      LessExactly(a[1..], b[1..]);
      if i: nat :| CommonUpTo(a[1..], b[1..], i) && (i == |a[1..]| || a[1..][i] < b[1..][i]) {
        assert a[..i + 1] == [a[0]] + a[1..][..i] && b[..i + 1] == [b[0]] + b[1..][..i];
        assert CommonUpTo(a, b, i + 1);
      }
      if i: nat :| CommonUpTo(a, b, i) && (i == |a| || a[i] < b[i]) {
        assert i > 0;
        assert a[1..][..i - 1] == a[..i][1..] && b[1..][..i - 1] == b[..i][1..];
        assert CommonUpTo(a[1..], b[1..], i - 1);
      }
    } else if Less(a, b) {
      assert CommonUpTo(a, b, 0);
    } else if i: nat :| CommonUpTo(a, b, i) && (i == |a| || a[i] < b[i]) {
      CommonHead(a, b, i);
    }
  }

  lemma CommonHead(a: string, b: string, i: nat)
    ensures CommonUpTo(a, b, i) && i > 0 ==> a != "" && b != "" && a[0] == b[0]
  {
    if CommonUpTo(a, b, i) && i > 0 {
      assert a[..i][0] == a[0] && b[..i][0] == b[0];
    }
  }

  /** Up to position `i`, inside of `b`, the strings agree. */
  predicate CommonUpTo(a: string, b: string, i: nat) {
    i <= |a| && i < |b| && a[..i] == b[..i]
  }

  // ----- strings.Split, strings.Join and strings.Cut on a one-character separator -----

  /** The index of the first `sep` in `s`, or |s| when there is none. */
  function Find(s: string, sep: char): (i: nat)
    ensures i <= |s|
    ensures sep !in s[..i]
    ensures i < |s| ==> s[i] == sep
  {
    if s == [] then 0
    else if s[0] == sep then 0
    else
      var i := 1 + Find(s[1..], sep);
      assert s[..i] == [s[0]] + s[1..][..i - 1];
      i
  }

  lemma FindUnique(s: string, sep: char, i: nat)
    requires i <= |s| && sep !in s[..i] && (i < |s| ==> s[i] == sep)
    ensures Find(s, sep) == i
  {
    var j := Find(s, sep);
  }

  function Split(s: string, sep: char): (parts: seq<string>)
    ensures |parts| >= 1
    ensures forall i :: 0 <= i < |parts| ==> sep !in parts[i]
    decreases |s|
  {
    var i := Find(s, sep);
    if i == |s| then
      assert s[..i] == s;
      [s]
    else [s[..i]] + Split(s[i + 1..], sep)
  }

  function Join(parts: seq<string>, sep: char): string {
    if parts == [] then ""
    else if |parts| == 1 then parts[0]
    else parts[0] + [sep] + Join(parts[1..], sep)
  }

  lemma {:induction false} SplitJoin(parts: seq<string>, sep: char)
    requires |parts| >= 1
    requires forall i :: 0 <= i < |parts| ==> sep !in parts[i]
    ensures Split(Join(parts, sep), sep) == parts
  {
    var s := Join(parts, sep);
    if |parts| == 1 {
      assert s[..|s|] == s;
      FindUnique(s, sep, |s|);
    } else {
      var i := |parts[0]|;
      assert s[..i] == parts[0];
      FindUnique(s, sep, i);
      assert s[i + 1..] == Join(parts[1..], sep);
      SplitJoin(parts[1..], sep);
    }
  }

  lemma {:induction false} SplitCovers(s: string, sep: char, k: nat)
    requires k < |s|
    ensures s[k] == sep || exists i :: 0 <= i < |Split(s, sep)| && s[k] in Split(s, sep)[i]
    decreases |s|
  {
    var i := Find(s, sep);
    if i == |s| {
      assert s[k] in Split(s, sep)[0];
    } else if k < i {
      assert s[k] == s[..i][k];
      assert s[k] in Split(s, sep)[0];
    } else if k > i {
      var rest := s[i + 1..];
      SplitCovers(rest, sep, k - i - 1);
      if rest[k - i - 1] != sep {
        var j :| 0 <= j < |Split(rest, sep)| && rest[k - i - 1] in Split(rest, sep)[j];
        assert Split(s, sep)[j + 1] == Split(rest, sep)[j];
      }
    }
  }

  // ----- strings.TrimSpace and searching for a short pattern -----

  predicate AsciiSpace(c: char) {
    c == ' ' || '\t' <= c <= '\r'
  }

  /** A byte that belongs to no white space, of whatever width. */
  predicate Solid(c: char) {
    c < '\U{80}' && !AsciiSpace(c)
  }

  /** unicode.IsSpace, on the one to three bytes of a character's UTF-8. */
  predicate IsSpace(rune: string) {
    || (|rune| == 1 && AsciiSpace(rune[0]))
    || (|rune| == 2 && rune[0] == '\U{C2}' && (rune[1] == '\U{85}' || rune[1] == '\U{A0}'))
    || (|rune| == 3 && rune[0] == '\U{E1}' && rune[1] == '\U{9A}' && rune[2] == '\U{80}')
    || (|rune| == 3 && rune[0] == '\U{E2}' && rune[1] == '\U{80}' && '\U{80}' <= rune[2] <= '\U{8A}')
    || (|rune| == 3 && rune[0] == '\U{E2}' && rune[1] == '\U{80}' && (rune[2] == '\U{A8}' || rune[2] == '\U{A9}' || rune[2] == '\U{AF}'))
    || (|rune| == 3 && rune[0] == '\U{E2}' && rune[1] == '\U{81}' && rune[2] == '\U{9F}')
    || (|rune| == 3 && rune[0] == '\U{E3}' && rune[1] == '\U{80}' && rune[2] == '\U{80}')
  }

  /** The bytes of the white space in front, 0 if there is none. */
  function SpaceFront(s: string): (w: nat)
    ensures w <= |s|
  {
    if |s| >= 1 && IsSpace(s[..1]) then 1
    else if |s| >= 2 && IsSpace(s[..2]) then 2
    else if |s| >= 3 && IsSpace(s[..3]) then 3
    else 0
  }

  /** The bytes of the white space at the end, 0 if there is none. */
  function SpaceBack(s: string): (w: nat)
    ensures w <= |s|
  {
    if |s| >= 1 && IsSpace(s[|s| - 1..]) then 1
    else if |s| >= 2 && IsSpace(s[|s| - 2..]) then 2
    else if |s| >= 3 && IsSpace(s[|s| - 3..]) then 3
    else 0
  }

  function TrimLeft(s: string): string {
    if SpaceFront(s) > 0 then TrimLeft(s[SpaceFront(s)..]) else s
  }

  function TrimRight(s: string): string {
    if SpaceBack(s) > 0 then TrimRight(s[..|s| - SpaceBack(s)]) else s
  }

  function TrimSpace(s: string): string {
    TrimRight(TrimLeft(s))
  }

  lemma SpaceBytes(rune: string)
    requires IsSpace(rune)
    ensures forall i :: 0 <= i < |rune| ==> !Solid(rune[i])
  {
  }

  lemma SolidFront(s: string)
    requires s != "" && Solid(s[0])
    ensures SpaceFront(s) == 0
  {
    hide Solid, IsSpace;
    var w := SpaceFront(s);
    if w > 0 {
      assert s[..w][0] == s[0];
      SpaceBytes(s[..w]);
    }
  }

  lemma SolidBack(s: string)
    requires s != "" && Solid(s[|s| - 1])
    ensures SpaceBack(s) == 0
  {
    hide Solid, IsSpace;
    var w := SpaceBack(s);
    if w > 0 {
      assert s[|s| - w..][w - 1] == s[|s| - 1];
      SpaceBytes(s[|s| - w..]);
    }
  }

  lemma TrimKeeps(s: string)
    requires s != "" ==> Solid(s[0]) && Solid(s[|s| - 1])
    ensures TrimSpace(s) == s
  {
    hide SpaceFront, SpaceBack, Solid;
    if s != "" {
      SolidFront(s);
      SolidBack(s);
    }
  }

  /** The index of the first occurrence of `pattern`, or |s| when there is none. */
  function Search(s: string, pattern: string): (i: nat)
    ensures i <= |s|
    ensures i < |s| ==> i + |pattern| <= |s|
    ensures i < |s| ==> s[i..i + |pattern|] == pattern
  {
    if s == [] then 0
    else if pattern <= s then 0
    else 1 + Search(s[1..], pattern)
  }

  lemma {:induction false} SearchFrom(s: string, pattern: string, i: nat)
    requires pattern != "" && i <= |s| && (i < |s| ==> pattern <= s[i..])
    requires forall j :: 0 <= j < i ==> !(pattern <= s[j..])
    ensures Search(s, pattern) == i
  {
    if i > 0 {
      assert s[0..] == s;
      assert forall j :: 0 <= j < i - 1 ==> s[1..][j..] == s[j + 1..];
      SearchFrom(s[1..], pattern, i - 1);
    }
  }
}
