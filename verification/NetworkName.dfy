/** The EasyTier network name and its base32 loop: `network_name_for` in network/credentials.rs. */
module NetworkName {
  import opened Bytes

  /** The lower-case alphabet of section 6 of RFC 4648. */
  const ALPHABET := "abcdefghijklmnopqrstuvwxyz234567"

  function Pow2(n: nat): (p: nat)
    ensures p > 0
  {
    if n == 0 then 1 else 2 * Pow2(n - 1)
  }

  /** Bytes read as one big-endian number. */
  function BigEndianValue(b: seq<byte>): nat {
    if b == [] then 0 else 256 * BigEndianValue(b[..|b| - 1]) + b[|b| - 1]
  }

  /** The five bits of a 64-bit prefix that follow its first `5 * k` bits. */
  function Group(prefix: nat, k: nat): (g: nat)
    requires k < 12
    ensures g < 32
  {
    prefix / Pow2(59 - 5 * k) % 32
  }

  /** What the name should be: ten base32 digits of the leading 50 bits. */
  function NameOf(prefix: nat): string {
    "tc-" + seq(10, k requires 0 <= k < 10 => ALPHABET[Group(prefix, k)])
  }

  // ----- Powers of two and the 32-bit accumulator -----

  lemma {:induction false} Pow2Add(a: nat, b: nat)
    ensures Pow2(a + b) == Pow2(a) * Pow2(b)
  {
    if a > 0 {
      Pow2Add(a - 1, b);
      assert Pow2(a + b) == 2 * Pow2(a + b - 1);
      Doubling(Pow2(a - 1), Pow2(b));
    }
  }

  lemma Doubling(x: nat, y: nat)
    ensures 2 * (x * y) == (2 * x) * y
  {
  }

  lemma QuotientIsUnique(n: nat, d: nat, q: nat, r: nat)
    requires d > 0 && n == q * d + r && r < d
    ensures n / d == q && n % d == r
  {
    Difference(n / d, q, d);
    SmallMultiple(n / d - q, d);
  }

  lemma Difference(x: nat, y: nat, d: nat)
    ensures (x - y) * d == x * d - y * d
  {
  }

  lemma SmallMultiple(k: int, d: int)
    requires -d < k * d < d
    ensures k == 0
  {
  }

  lemma MulMonotone(x: nat, y: nat, a: nat)
    requires x <= y
    ensures x * a <= y * a
  {
  }

  lemma Regroup(q: nat, b: nat, r: nat, a: nat)
    ensures (q * b + r) * a == q * (a * b) + r * a
  {
    assert (q * b) * a == q * (a * b);
  }

  lemma DivideTwice(n: nat, a: nat, b: nat)
    requires a > 0 && b > 0
    ensures a * b > 0
    ensures n / (a * b) == n / a / b
  {
    MulMonotone(1, a, b);
    var q, r := n / a, n % a;
    var q', r' := q / b, q % b;
    NestedRemainders(n, a, b, q, r, q', r');
    QuotientIsUnique(n, a * b, q', r' * a + r);
  }

  lemma NestedRemainders(n: nat, a: nat, b: nat, q: nat, r: nat, q': nat, r': nat)
    requires n == q * a + r && r < a
    requires q == q' * b + r' && r' < b
    ensures n == q' * (a * b) + (r' * a + r)
    ensures r' * a + r < a * b
  {
    Regroup(q', b, r', a);
    MulMonotone(r' + 1, b, a);
    OneMore(r', a);
  }

  lemma OneMore(x: nat, a: nat)
    ensures (x + 1) * a == x * a + a
  {
  }

  /** Dropping the bits from 2^32 up does not disturb the five bits at a position up to 27. */
  lemma WrapKeepsLowGroups(n: nat, bits: nat)
    requires bits <= 27
    ensures n % TWO_TO_THE_32 / Pow2(bits) % 32 == n / Pow2(bits) % 32
  {
    var p, rest := Pow2(bits), Pow2(27 - bits);
    Pow2Add(bits, 27 - bits);
    PowerOf27();
    WrapKeepsGroups(n, p, rest);
  }

  lemma PowerOf27()
    ensures Pow2(27) == 0x800_0000
  {
    assert Pow2(9) == 512;
    Pow2Add(9, 9);
    Pow2Add(18, 9);
  }

  lemma WrapKeepsGroups(n: nat, p: nat, rest: nat)
    requires p > 0 && p * rest == 0x800_0000
    ensures n % TWO_TO_THE_32 / p % 32 == n / p % 32
  {
    var q, r := n / TWO_TO_THE_32, n % TWO_TO_THE_32;
    var s, t := r / p, r % p;
    LowQuotient(n, p, rest, q, r, s, t);
    QuotientIsUnique(n, p, q * rest * 32 + s, t);
    DropMultiple(q * rest, s);
  }

  lemma LowQuotient(n: nat, p: nat, rest: nat, q: nat, r: nat, s: nat, t: nat)
    requires p * rest == 0x800_0000
    requires n == q * TWO_TO_THE_32 + r && r == s * p + t
    ensures n == (q * rest * 32 + s) * p + t
  {
    Regroup(q * rest, 32, s, p);
    assert q * rest * (p * 32) == q * (p * rest) * 32;
  }

  lemma DropMultiple(k: nat, s: nat)
    ensures (k * 32 + s) % 32 == s % 32
  {
  }

  /** The first bytes of a string are its value with the later bytes shifted out. */
  lemma {:induction false} LeadingBytes(b: seq<byte>, i: nat)
    requires i <= |b|
    ensures BigEndianValue(b) / Pow2(8 * (|b| - i)) == BigEndianValue(b[..i])
    decreases |b| - i
  {
    if i == |b| {
      assert b[..i] == b;
    } else {
      LeadingBytes(b, i + 1);
      assert b[..i + 1][..i] == b[..i];
      var rest := 8 * (|b| - i - 1);
      Pow2Add(rest, 8);
      assert Pow2(8) == 256;
      DivideTwice(BigEndianValue(b), Pow2(rest), 256);
      QuotientIsUnique(BigEndianValue(b[..i + 1]), 256, BigEndianValue(b[..i]), b[i]);
    }
  }

  lemma {:induction false} ValueBound(b: seq<byte>)
    ensures BigEndianValue(b) < Pow2(8 * |b|)
  {
    if b != [] {
      ValueBound(b[..|b| - 1]);
      Pow2Add(8 * (|b| - 1), 8);
      assert Pow2(8) == 256;
    }
  }

  /** What the wrapped accumulator shows after `i` bytes, `bits` of them still unread, is group `k`. */
  lemma EmittedGroup(b: seq<byte>, i: nat, k: nat, bits: nat)
    requires |b| == 8 && i <= 8 && k < 12 && bits <= 7
    requires 8 * i == 5 * (k + 1) + bits
    ensures BigEndianValue(b[..i]) % TWO_TO_THE_32 / Pow2(bits) % 32 == Group(BigEndianValue(b), k)
  {
    WrapKeepsLowGroups(BigEndianValue(b[..i]), bits);
    LeadingBytes(b, i);
    DivideTwice(BigEndianValue(b), Pow2(64 - 8 * i), Pow2(bits));
    Pow2Add(64 - 8 * i, bits);
    assert 64 - 8 * i + bits == 59 - 5 * k;
  }

  // ----- The loop -----

  /** `value << 8 | byte` on 32 bits: the top byte is lost. */
  function ShiftIn(value: uint32, b: byte): uint32 {
    (value * 256 + b) % TWO_TO_THE_32
  }

  lemma ShiftInIsWrappedValue(n: nat, b: byte)
    ensures ShiftIn(n % TWO_TO_THE_32, b) == (n * 256 + b) % TWO_TO_THE_32
  {
    var q := n / TWO_TO_THE_32;
    var r := n % TWO_TO_THE_32;
    assert n * 256 + b == q * 256 * TWO_TO_THE_32 + (r * 256 + b);
    WrapDropsMultiples(q * 256, r * 256 + b);
  }

  lemma WrapDropsMultiples(k: nat, n: nat)
    ensures (k * TWO_TO_THE_32 + n) % TWO_TO_THE_32 == n % TWO_TO_THE_32
  {
  }

  /** The loop, bit buffer and all; the last, short group it also encodes never reaches the name. */
  method NetworkNameFor(digest: seq<byte>) returns (name: string)
    requires |digest| == 32
    ensures name == NameOf(BigEndianValue(digest[..8]))
  {
    ghost var b := digest[..8];
    var encoded: string := "";
    var bits: nat := 0;
    var value: uint32 := 0;
    for i := 0 to 8
      invariant bits < 5 && 8 * i == 5 * |encoded| + bits
      invariant value == BigEndianValue(b[..i]) % TWO_TO_THE_32
      invariant forall k :: 0 <= k < |encoded| ==> encoded[k] == ALPHABET[Group(BigEndianValue(b), k)]
    {
      assert b[..i + 1][..i] == b[..i];
      ShiftInIsWrappedValue(BigEndianValue(b[..i]), digest[i]);
      value := ShiftIn(value, digest[i]);
      bits := bits + 8;
      while bits >= 5
        invariant 8 * (i + 1) == 5 * |encoded| + bits && bits < 13
        invariant forall k :: 0 <= k < |encoded| ==> encoded[k] == ALPHABET[Group(BigEndianValue(b), k)]
      {
        bits := bits - 5;
        EmittedGroup(b, i + 1, |encoded|, bits);
        var index := value / Pow2(bits) % 32;
        encoded := encoded + [ALPHABET[index]];
      }
    }
    assert |encoded| == 12 && bits == 4;
    if bits > 0 {
      var index := value * Pow2(5 - bits) % TWO_TO_THE_32 % 32;
      encoded := encoded + [ALPHABET[index]];
    }
    name := "tc-" + encoded[..if |encoded| < 10 then |encoded| else 10];
  }

  // ----- Which prefixes share a name -----

  lemma AlphabetIsInjective(i: nat, j: nat)
    requires i < 32 && j < 32
    ensures ALPHABET[i] == ALPHABET[j] <==> i == j
  {
    var s := ALPHABET;
    assert forall k :: 0 <= k < 26 ==> s[k] == 'a' + k as char;
    assert forall k :: 26 <= k < 32 ==> s[k] == '2' + (k - 26) as char;
  }

  /** A number below 2^(5n) is determined by its n base-32 digits. */
  lemma {:induction false} DigitsDetermine(n: nat, x: nat, y: nat)
    requires x < Pow2(5 * n) && y < Pow2(5 * n)
    requires forall j :: 0 <= j < n ==> x / Pow2(5 * j) % 32 == y / Pow2(5 * j) % 32
    ensures x == y
  {
    if n > 0 {
      Pow2Add(5 * (n - 1), 5);
      assert Pow2(5) == 32;
      assert x / Pow2(5 * 0) % 32 == y / Pow2(5 * 0) % 32;
      forall j | 0 <= j < n - 1
        ensures x / 32 / Pow2(5 * j) % 32 == y / 32 / Pow2(5 * j) % 32
      {
        Pow2Add(5, 5 * j);
        DivideTwice(x, 32, Pow2(5 * j));
        DivideTwice(y, 32, Pow2(5 * j));
        assert 5 + 5 * j == 5 * (j + 1);
        assert x / Pow2(5 * (j + 1)) % 32 == y / Pow2(5 * (j + 1)) % 32;
      }
      DigitsDetermine(n - 1, x / 32, y / 32);
    }
  }

  /** The leading 50 of 64 bits. */
  function TopBits(prefix: nat): nat {
    prefix / Pow2(14)
  }

  function TopDigit(prefix: nat, j: nat): nat {
    TopBits(prefix) / Pow2(5 * j) % 32
  }

  lemma GroupIsTopDigit(prefix: nat, k: nat)
    requires k < 10
    ensures Group(prefix, k) == TopDigit(prefix, 9 - k)
  {
    Pow2Add(14, 5 * (9 - k));
    DivideTwice(prefix, Pow2(14), Pow2(5 * (9 - k)));
    assert 14 + 5 * (9 - k) == 59 - 5 * k;
  }

  lemma TopBitsBound(p: nat)
    requires p < Pow2(64)
    ensures TopBits(p) < Pow2(5 * 10)
  {
    Pow2Add(50, 14);
    QuotientBelow(p, Pow2(50), Pow2(14));
  }

  lemma QuotientBelow(n: nat, a: nat, b: nat)
    requires b > 0 && n < a * b
    ensures n / b < a
  {
    if a <= n / b {
      MulMonotone(a, n / b, b);
    }
  }

  /** Two digests give one network name exactly when their top 50 bits agree. */
  lemma NamesAgreeExactlyOnTop50Bits(p: nat, q: nat)
    requires p < Pow2(64) && q < Pow2(64)
    ensures NameOf(p) == NameOf(q) <==> TopBits(p) == TopBits(q)
  {
    if TopBits(p) == TopBits(q) {
      forall k | 0 <= k < 10
        ensures Group(p, k) == Group(q, k)
      {
        GroupIsTopDigit(p, k);
        GroupIsTopDigit(q, k);
      }
    } else if NameOf(p) == NameOf(q) {
      forall j | 0 <= j < 10
        ensures TopDigit(p, j) == TopDigit(q, j)
      {
        EqualNamesHaveEqualDigits(p, q, j);
      }
      EqualDigitsGiveEqualTopBits(p, q);
    }
  }

  lemma NameSymbol(prefix: nat, k: nat)
    requires k < 10
    ensures |NameOf(prefix)| == 13 && NameOf(prefix)[3 + k] == ALPHABET[Group(prefix, k)]
  {
  }

  lemma EqualNamesHaveEqualDigits(p: nat, q: nat, j: nat)
    requires j < 10
    requires NameOf(p) == NameOf(q)
    ensures TopDigit(p, j) == TopDigit(q, j)
  {
    GroupIsTopDigit(p, 9 - j);
    GroupIsTopDigit(q, 9 - j);
    NameSymbol(p, 9 - j);
    NameSymbol(q, 9 - j);
    AlphabetIsInjective(TopDigit(p, j), TopDigit(q, j));
  }

  lemma EqualDigitsGiveEqualTopBits(p: nat, q: nat)
    requires p < Pow2(64) && q < Pow2(64)
    requires forall j :: 0 <= j < 10 ==> TopDigit(p, j) == TopDigit(q, j)
    ensures TopBits(p) == TopBits(q)
  {
    TopBitsBound(p);
    TopBitsBound(q);
    forall j | 0 <= j < 10
      ensures TopBits(p) / Pow2(5 * j) % 32 == TopBits(q) / Pow2(5 * j) % 32
    {
      assert TopDigit(p, j) == TopDigit(q, j);
    }
    DigitsDetermine(10, TopBits(p), TopBits(q));
  }

  // ----- In terms of the digests -----

  lemma {:induction false} EqualValuesAreEqualBytes(b: seq<byte>, c: seq<byte>)
    requires |b| == |c| && BigEndianValue(b) == BigEndianValue(c)
    ensures b == c
  {
    if b != [] {
      var m, n := BigEndianValue(b[..|b| - 1]), BigEndianValue(c[..|c| - 1]);
      QuotientIsUnique(BigEndianValue(b), 256, m, b[|b| - 1]);
      QuotientIsUnique(BigEndianValue(c), 256, n, c[|c| - 1]);
      EqualValuesAreEqualBytes(b[..|b| - 1], c[..|c| - 1]);
      assert b == b[..|b| - 1] + [b[|b| - 1]] && c == c[..|c| - 1] + [c[|c| - 1]];
    }
  }

  /** The top 50 bits are the first six bytes and the top two bits of the seventh. */
  lemma TopBitsOfBytes(b: seq<byte>)
    requires |b| == 8
    ensures TopBits(BigEndianValue(b)) == BigEndianValue(b[..6]) * 4 + b[6] / 64
  {
    LeadingBytes(b, 7);
    assert b[..7][..6] == b[..6];
    Pow2Add(8, 6);
    assert Pow2(6) == 64 && Pow2(8) == 256;
    DivideTwice(BigEndianValue(b), Pow2(8), Pow2(6));
    var high, seventh: int := BigEndianValue(b[..6]), b[6];
    assert high * 256 + seventh == (high * 4 + seventh / 64) * 64 + seventh % 64;
    QuotientIsUnique(high * 256 + seventh, 64, high * 4 + seventh / 64, seventh % 64);
  }

  /** Two digests give one network name exactly when they agree on six bytes and the top two bits of the seventh. */
  lemma DigestsShareANameExactly(d: seq<byte>, e: seq<byte>)
    requires |d| == 32 && |e| == 32
    ensures NameOf(BigEndianValue(d[..8])) == NameOf(BigEndianValue(e[..8]))
       <==> d[..6] == e[..6] && d[6] / 64 == e[6] / 64
  {
    var b, c := d[..8], e[..8];
    ValueBound(b);
    ValueBound(c);
    NamesAgreeExactlyOnTop50Bits(BigEndianValue(b), BigEndianValue(c));
    TopBitsOfBytes(b);
    TopBitsOfBytes(c);
    assert b[..6] == d[..6] && c[..6] == e[..6];
    if TopBits(BigEndianValue(b)) == TopBits(BigEndianValue(c)) {
      var x: int, y: int := d[6], e[6];
      QuotientIsUnique(TopBits(BigEndianValue(b)), 4, BigEndianValue(d[..6]), x / 64);
      QuotientIsUnique(TopBits(BigEndianValue(c)), 4, BigEndianValue(e[..6]), y / 64);
      EqualValuesAreEqualBytes(d[..6], e[..6]);
    }
  }
}
