/** Standard base64 with padding, as section 4 of RFC 4648 defines it; strings hold one byte a character. */
module Base64 {
  import opened Utf8

  ghost predicate Bytes(s: string) {
    forall i :: 0 <= i < |s| ==> s[i] < '\U{100}'
  }

  function Symbol(n: nat): char
    requires n < 64
  {
    if n < 26 then ('A' as int + n) as char
    else if n < 52 then ('a' as int + n - 26) as char
    else if n < 62 then ('0' as int + n - 52) as char
    else if n == 62 then '+' else '/'
  }

  /** The six bits a symbol stands for; the padding stands for none. */
  function Sextet(c: char): nat {
    if 'A' <= c <= 'Z' then c as int - 'A' as int
    else if 'a' <= c <= 'z' then c as int - 'a' as int + 26
    else if '0' <= c <= '9' then c as int - '0' as int + 52
    else if c == '+' then 62 else if c == '/' then 63 else 0
  }

  function ByteAt(s: string, i: nat): (b: nat)
    ensures b < 256
  {
    if i < |s| then s[i] as int % 256 else 0
  }

  // Three bytes as four groups of six bits, and back.
  function High(a: nat): (n: nat) ensures a < 256 ==> n < 64 { a / 4 }
  function Upper(a: nat, b: nat): (n: nat) ensures b < 256 ==> n < 64 { a % 4 * 16 + b / 16 }
  function Lower(b: nat, c: nat): (n: nat) ensures c < 256 ==> n < 64 { b % 16 * 4 + c / 64 }
  function Low(c: nat): (n: nat) ensures n < 64 { c % 64 }
  function First(w: nat, x: nat): (n: nat) ensures n < 256 { (w * 4 + x / 16) % 256 }
  function Second(x: nat, y: nat): (n: nat) ensures n < 256 { (x % 16 * 16 + y / 4) % 256 }
  function Third(y: nat, z: nat): (n: nat) ensures n < 256 { (y % 4 * 64 + z) % 256 }

  /** Symbol `i` of the four for the first three bytes, a missing byte read as zero. */
  function QuadSymbol(s: string, i: nat): char {
    var a, b, c := ByteAt(s, 0), ByteAt(s, 1), ByteAt(s, 2);
    if i == 0 then Symbol(High(a))
    else if i == 1 then Symbol(Upper(a, b))
    else if i == 2 then if |s| < 2 then '=' else Symbol(Lower(b, c))
    else if |s| < 3 then '=' else Symbol(Low(c))
  }

  function Quad(s: string): (q: string) {
    seq(4, (i: nat) => QuadSymbol(s, i))
  }

  function Encode(s: string): string {
    if s == "" then "" else if |s| <= 3 then Quad(s) else Quad(s[..3]) + Encode(s[3..])
  }

  function TripleByte(q: string, i: nat): char
    requires |q| == 4
  {
    var w, x, y, z := Sextet(q[0]), Sextet(q[1]), Sextet(q[2]), Sextet(q[3]);
    (if i == 0 then First(w, x) else if i == 1 then Second(x, y) else Third(y, z)) as char
  }

  function Triple(q: string): string
    requires |q| == 4
  {
    seq(if q[2] == '=' then 1 else if q[3] == '=' then 2 else 3, (i: nat) => TripleByte(q, i))
  }

  function Decode(t: string): string {
    if |t| < 4 then "" else Triple(t[..4]) + Decode(t[4..])
  }

  lemma SextetOfSymbol(n: nat)
    requires n < 64
    ensures Sextet(Symbol(n)) == n && Symbol(n) != '='
  {
  }

  lemma FirstByte(a: nat, b: nat)
    requires a < 256 && b < 256
    ensures First(High(a), Upper(a, b)) == a
  {
    assert Upper(a, b) / 16 == a % 4;
  }

  lemma SecondByte(a: nat, b: nat, c: nat)
    requires a < 256 && b < 256 && c < 256
    ensures Second(Upper(a, b), Lower(b, c)) == b
  {
    assert Upper(a, b) % 16 == b / 16;
    assert Lower(b, c) / 4 == b % 16;
  }

  lemma ThirdByte(b: nat, c: nat)
    requires b < 256 && c < 256
    ensures Third(Lower(b, c), Low(c)) == c
  {
    assert Lower(b, c) % 4 == c / 64;
  }

  lemma TripleOfQuad(s: string)
    requires 1 <= |s| <= 3 && Bytes(s)
    ensures Triple(Quad(s)) == s
  {
    hide Sextet, Symbol, First, Second, Third, High, Upper, Lower, Low;
    var a, b, c := ByteAt(s, 0), ByteAt(s, 1), ByteAt(s, 2);
    FirstByte(a, b);
    SecondByte(a, b, c);
    ThirdByte(b, c);
    SextetOfSymbol(High(a));
    SextetOfSymbol(Upper(a, b));
    SextetOfSymbol(Lower(b, c));
    SextetOfSymbol(Low(c));
  }

  /** Whoever decodes a Secret's value reads the configured bytes back. */
  lemma {:induction false} RoundTrip(s: string)
    requires Bytes(s)
    ensures Decode(Encode(s)) == s
    decreases |s|
  {
    hide Triple, Quad;
    if |s| > 3 {
      var rest := Encode(s[3..]);
      RoundTrip(s[3..]);
      TripleOfQuad(s[..3]);
      QuadSize(s[..3]);
      assert (Quad(s[..3]) + rest)[..4] == Quad(s[..3]) && (Quad(s[..3]) + rest)[4..] == rest;
      assert s[..3] + s[3..] == s;
    } else if s != "" {
      TripleOfQuad(s);
      QuadSize(s);
      assert Quad(s)[..4] == Quad(s) && Quad(s)[4..] == "";
    }
  }

  /** An ASCII character that JSON strings hold as it is. */
  predicate Unescaped(c: char) {
    c < '\U{80}' && RuneLength([c]) == 1
  }

  lemma QuadSize(s: string)
    ensures |Quad(s)| == 4 && StringLength(Quad(s)) == 6
    ensures forall i :: 0 <= i < 4 ==> Unescaped(Quad(s)[i])
  {
    var q := Quad(s);
    assert forall i :: 0 <= i < 4 ==> Unescaped(q[i]);
    PlainLength(q);
  }

  lemma {:induction false} PlainLength(s: string)
    requires forall i :: 0 <= i < |s| ==> Unescaped(s[i])
    ensures StringLength(s) == |s| + 2
  {
    if s != [] {
      assert s[..1] == [s[0]];
      PlainLength(s[1..]);
    }
  }

  lemma {:induction false} EncodePlain(s: string)
    ensures forall i :: 0 <= i < |Encode(s)| ==> Unescaped(Encode(s)[i])
    decreases |s|
  {
    hide Quad, Unescaped;
    if |s| > 3 {
      QuadSize(s[..3]);
      EncodePlain(s[3..]);
    } else if s != "" {
      QuadSize(s);
    }
  }

  /** EncodedLen, and nothing in the text needs a JSON escape. */
  lemma EncodeLength(s: string)
    ensures |Encode(s)| == (|s| + 2) / 3 * 4
    ensures Ascii(Encode(s)) && StringLength(Encode(s)) == |Encode(s)| + 2
  {
    EncodePlain(s);
    PlainLength(Encode(s));
    EncodeSize(s);
  }

  lemma {:induction false} EncodeSize(s: string)
    ensures |Encode(s)| == (|s| + 2) / 3 * 4
    decreases |s|
  {
    hide Quad;
    if |s| > 3 {
      QuadSize(s[..3]);
      EncodeSize(s[3..]);
      assert (|s| + 2) / 3 == (|s| - 3 + 2) / 3 + 1;
    } else if s != "" {
      QuadSize(s);
    }
  }
}
