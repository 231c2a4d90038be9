/** The names a controller gives to what it creates: deterministic, so that repeated reconciles meet the same pods. */
module PodNames {
  import opened Text

  const ALPHABET := "bcdfghjklmnpqrstvwxz2456789"
  const FNV_OFFSET := 2166136261
  const FNV_PRIME := 16777619
  const TWO_TO_32 := 0x1_0000_0000
  const SUFFIX_LENGTH := 5

  /** The exclusive or of the low `bits` bits of two numbers. */
  function Xor(a: nat, b: nat, bits: nat): nat
    decreases bits
  {
    if bits == 0 then 0 else 2 * Xor(a / 2, b / 2, bits - 1) + (a + b) % 2
  }

  /** One FNV-1a round in 32-bit arithmetic; a byte only meets the low eight bits of the hash. */
  function Round(hash: nat, c: char): nat {
    var byte := c as int % 256;
    (hash - hash % 256 + Xor(hash % 256, byte, 8)) * FNV_PRIME % TWO_TO_32
  }

  /** Strings are hashed byte by byte. */
  function Fnv32(value: string): nat {
    if value == [] then FNV_OFFSET else Round(Fnv32(value[..|value| - 1]), value[|value| - 1])
  }

  function Letter(sum: nat): char {
    ALPHABET[sum % 26]
  }

  function Letters(sum: nat, count: nat): (s: string)
    ensures |s| == count
    decreases count
  {
    if count == 0 then "" else [Letter(sum)] + Letters(sum / 26, count - 1)
  }

  function Suffix(seed: string, index: nat): string {
    Letters(Fnv32(seed + "/" + Decimal(index)), SUFFIX_LENGTH)
  }

  function Hex(n: nat): string {
    if n < 16 then [HexDigit(n)] else Hex(n / 16) + [HexDigit(n % 16)]
  }

  /** The pod-template-hash of a template's encoding. */
  function TemplateHash(encoding: string): string {
    Suffix(Hex(Fnv32(encoding)), 0)
  }

  method ComputeFnv32(value: string) returns (hash: nat)
    ensures hash == Fnv32(value)
  {
    hide Round;
    hash := FNV_OFFSET;
    for i := 0 to |value|
      invariant hash == Fnv32(value[..i])
    {
      assert value[..i + 1][..i] == value[..i];
      hash := Round(hash, value[i]);
    }
    assert value[..|value|] == value;
  }

  method SuffixFor(seed: string, index: nat) returns (s: string)
    ensures s == Suffix(seed, index)
  {
    hide Fnv32, Letter, Decimal;
    var sum := ComputeFnv32(seed + "/" + Decimal(index));
    s := "";
    for i := 0 to SUFFIX_LENGTH
      invariant s + Letters(sum, SUFFIX_LENGTH - i) == Suffix(seed, index)
    {
      assert Letters(sum, SUFFIX_LENGTH - i) == [Letter(sum)] + Letters(sum / 26, SUFFIX_LENGTH - i - 1);
      s := s + [Letter(sum)];
      sum := sum / 26;
    }
  }

  lemma ExclusiveOr()
    ensures Xor(197, 97, 8) == 164
  {
    assert Xor(1, 0, 1) == 1 && Xor(3, 1, 2) == 2 && Xor(6, 3, 3) == 5 && Xor(12, 6, 4) == 10;
  }

  lemma FirstRound()
    ensures Round(FNV_OFFSET, 'a') == 0xE40C_292C
  {
    hide Xor;
    ExclusiveOr();
    assert 'a' as int % 256 == 97;
    assert FNV_OFFSET % 256 == 197;
    assert 2166136228 * 16777619 == 36342608335481132;
    assert 36342608335481132 % 0x1_0000_0000 == 0xE40C_292C;
  }

  /** The published values of the hash at the empty string and at "a". */
  lemma KnownHash()
    ensures Fnv32("") == 0x811C_9DC5 && Fnv32("a") == 0xE40C_292C
  {
    FirstRound();
    hide Round;
    assert "a"[..0] == "" && Fnv32("") == FNV_OFFSET;
  }

  // ----- when two generated parts agree -----

  function Power26(n: nat): (p: nat)
    ensures p > 0
  {
    if n == 0 then 1 else 26 * Power26(n - 1)
  }

  /** The lowest digits in base 26, first digit first. */
  lemma {:induction false} SplitDigits(x: nat, p: nat)
    requires p > 0
    ensures x % (26 * p) == x % 26 + 26 * (x / 26 % p)
  {
    var q, r := x / 26, x % 26;
    var u, v := q / p, q % p;
    assert x == (26 * p) * u + (r + 26 * v) by {
      assert x == 26 * q + r && q == p * u + v;
      assert 26 * (p * u) == (26 * p) * u;
    }
    RemainderIs(x, 26 * p, u, r + 26 * v);
  }

  lemma RemainderIs(x: nat, m: nat, u: nat, r: nat)
    requires x == m * u + r && r < m
    ensures x % m == r
  {
    var d := x / m - u;
    assert m * d == r - x % m;
    SmallMultiple(m, d);
  }

  lemma SmallMultiple(m: int, d: int)
    requires m > 0 && -m < m * d < m
    ensures d == 0
  {
    assert d >= 1 ==> m * d >= m;
    assert d <= -1 ==> m * d <= -m;
  }

  lemma LetterInjective(x: nat, y: nat)
    ensures Letter(x) == Letter(y) <==> x % 26 == y % 26
  {
  }

  lemma {:induction false} LettersAgree(x: nat, y: nat, count: nat)
    ensures Letters(x, count) == Letters(y, count) <==> x % Power26(count) == y % Power26(count)
    decreases count
  {
    hide Letter;
    if count > 0 {
      LetterInjective(x, y);
      LettersAgree(x / 26, y / 26, count - 1);
      SplitDigits(x, Power26(count - 1));
      SplitDigits(y, Power26(count - 1));
      assert Letters(x, count)[1..] == Letters(x / 26, count - 1) && Letters(y, count)[1..] == Letters(y / 26, count - 1);
      assert Letters(x, count) == [Letter(x)] + Letters(x / 26, count - 1);
    }
  }

  lemma FiveDigits()
    ensures Power26(5) == 11881376
  {
    assert Power26(1) == 26 && Power26(2) == 676 && Power26(3) == 17576 && Power26(4) == 456976;
  }

  /** Two suffixes are the same exactly when the hashes of seed, slash and index agree in their last five digits in base 26. */
  lemma SuffixesAgree(a: string, i: nat, b: string, j: nat)
    ensures Suffix(a, i) == Suffix(b, j) <==> Fnv32(a + "/" + Decimal(i)) % 11881376 == Fnv32(b + "/" + Decimal(j)) % 11881376
  {
    hide Fnv32, Letters, Decimal;
    FiveDigits();
    LettersAgree(Fnv32(a + "/" + Decimal(i)), Fnv32(b + "/" + Decimal(j)), 5);
  }

  /** The letters are the 26 first of the alphabet, and stand for the digits from the lowest. */
  lemma SuffixLetters(seed: string, index: nat)
    ensures var hash, letters := Fnv32(seed + "/" + Decimal(index)), "bcdfghjklmnpqrstvwxz2456789";
      Suffix(seed, index) == [letters[hash % 26], letters[hash / 26 % 26], letters[hash / 26 / 26 % 26],
                              letters[hash / 26 / 26 / 26 % 26], letters[hash / 26 / 26 / 26 / 26 % 26]]
  {
    hide Fnv32, Decimal;
    FiveLetters(Fnv32(seed + "/" + Decimal(index)));
  }

  lemma FiveLetters(hash: nat)
    ensures var b, c, d, e := hash / 26, hash / 26 / 26, hash / 26 / 26 / 26, hash / 26 / 26 / 26 / 26;
      Letters(hash, 5) == [Letter(hash), Letter(b), Letter(c), Letter(d), Letter(e)]
  {
    hide Letter;
    var b, c, d, e := hash / 26, hash / 26 / 26, hash / 26 / 26 / 26, hash / 26 / 26 / 26 / 26;
    assert Letters(e, 1) == [Letter(e)] && Letters(d, 2) == [Letter(d), Letter(e)];
    assert Letters(c, 3) == [Letter(c), Letter(d), Letter(e)];
  }

  function HexRead(s: string): nat {
    if s == "" then 0
    else
      var c := s[|s| - 1];
      16 * HexRead(s[..|s| - 1]) + (if c <= '9' then if c < '0' then 0 else c as int - '0' as int else if c < 'a' then 0 else c as int - 'a' as int + 10)
  }

  lemma {:induction false} HexReads(n: nat)
    ensures HexRead(Hex(n)) == n
  {
    if n >= 16 {
      HexReads(n / 16);
      assert Hex(n)[..|Hex(n)| - 1] == Hex(n / 16);
    } else {
      assert Hex(n)[..0] == "" && HexRead("") == 0;
    }
  }

  /** Two templates share a hash exactly when the hashes of their hashes' digits agree, as they do for equal hashes. */
  lemma TemplatesAgree(a: string, b: string)
    ensures TemplateHash(a) == TemplateHash(b) <==>
      Fnv32(Hex(Fnv32(a)) + "/" + Decimal(0)) % 11881376 == Fnv32(Hex(Fnv32(b)) + "/" + Decimal(0)) % 11881376
    ensures Hex(Fnv32(a)) == Hex(Fnv32(b)) <==> Fnv32(a) == Fnv32(b)
  {
    SuffixesAgree(Hex(Fnv32(a)), 0, Hex(Fnv32(b)), 0);
    HexReads(Fnv32(a));
    HexReads(Fnv32(b));
    hide Suffix, Fnv32, Hex, Decimal, HexRead;
  }

  /** Of more numbers below `n` than there are, two are the same. */
  lemma {:induction false} Pigeonhole(s: seq<nat>, n: nat) returns (i: nat, j: nat)
    requires |s| == n + 1 && forall k :: 0 <= k < |s| ==> s[k] < n
    ensures i < j < |s| && s[i] == s[j]
    decreases n
  {
    var v := s[n];
    if k: nat :| k < n && s[k] == v {
      i, j := k, n;
    } else {
      i, j := Pigeonhole(seq(n, k requires 0 <= k < n => if s[k] == n - 1 then v else s[k]), n - 1);
    }
  }

  /** There are templates that share a hash: numbers below 11881377 do. */
  lemma TemplatesCanAgree() returns (m: nat, n: nat)
    ensures m < n <= 11881376 && TemplateHash(Decimal(m)) == TemplateHash(Decimal(n))
    ensures Decimal(m) != Decimal(n)
  {
    hide Fnv32, Hex, Decimal, TemplateHash;
    m, n := Pigeonhole(seq(11881376 + 1, k requires 0 <= k <= 11881376 => Fnv32(Hex(Fnv32(Decimal(k))) + "/" + Decimal(0)) % 11881376), 11881376);
    TemplatesAgree(Decimal(m), Decimal(n));
    DecimalRoundTrip(m);
    DecimalRoundTrip(n);
  }

  // ----- the names a workload's controller keeps -----

  function Numbered(prefix: string, count: nat, name: nat -> string): (names: seq<string>)
    ensures |names| == count && forall i :: 0 <= i < count ==> names[i] == prefix + name(i)
  {
    seq(count, i requires 0 <= i < count => prefix + name(i))
  }

  /** workloadPodNames; `replicas` is already capped. */
  function WorkloadPodNames(kind: string, name: string, replicas: nat, nodeCount: nat): seq<string> {
    if kind == "StatefulSet" then Numbered(name + "-", replicas, (i: nat) => Decimal(i))
    else if kind == "DaemonSet" then Numbered(name + "-", if nodeCount < replicas then nodeCount else replicas, (i: nat) => Suffix(name, i))
    else if kind == "Deployment" || kind == "ReplicaSet" then
      Numbered(name + "-" + Suffix(name + "-rs", 0) + "-", replicas, (i: nat) => Suffix(name, i + 1))
    else if kind == "Job" then [name + "-" + Suffix(name, 0)]
    else []
  }

  /** The pods of a Deployment's ReplicaSet. */
  function ReplicaPodNames(rsName: string, desired: nat): seq<string> {
    Numbered(rsName + "-", desired, (i: nat) => Suffix(rsName, i))
  }
}
