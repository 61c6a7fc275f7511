/** Room codes and what is derived from them: network/credentials.rs. */
module Credentials {
  import opened Bytes
  import opened Text
  import opened Wrappers

  // ----- Room-code normal form -----

  predicate IsSeparator(c: char) {
    c == '-' || c == ' '
  }

  /** Separators dropped anywhere, ASCII letters raised to upper case. */
  function CompactRoomCode(value: string): string {
    if value == [] then []
    else if IsSeparator(value[0]) then CompactRoomCode(value[1..])
    else [ToAsciiUpper(value[0])] + CompactRoomCode(value[1..])
  }

  /** Lengths count UTF-8 bytes, as `str::len` does. */
  predicate PassesCodeCheck(compact: string) {
    Utf8Length(compact) == 12 && forall i :: 0 <= i < |compact| ==> IsAsciiAlphanumeric(compact[i])
  }

  function FormatRoomCode(compact: string): (code: string)
    requires |compact| >= 12
    ensures |code| == 14
  {
    compact[0..4] + "-" + compact[4..8] + "-" + compact[8..12]
  }

  function NormalizeRoomCode(value: string): Option<string> {
    var compact := CompactRoomCode(value);
    if !PassesCodeCheck(compact) then None
    else
      CheckedCodeHasTwelveSymbols(compact);
      Some(FormatRoomCode(compact))
  }

  lemma CheckedCodeHasTwelveSymbols(compact: string)
    requires PassesCodeCheck(compact)
    ensures |compact| == 12
  {
    Utf8LengthOfAscii(compact);
  }

  predicate IsCodeSymbol(c: char) {
    IsAsciiUpper(c) || IsAsciiDigit(c)
  }

  predicate IsCompact(compact: string) {
    |compact| == 12 && forall i :: 0 <= i < 12 ==> IsCodeSymbol(compact[i])
  }

  /** Three dash-separated groups of four upper-case letters or digits. */
  predicate IsNormalForm(code: string) {
    |code| == 14 && code[4] == '-' && code[9] == '-' && IsCompact(code[0..4] + code[5..9] + code[10..14])
  }

  lemma {:induction false} CompactOfConcatenation(a: string, b: string)
    ensures CompactRoomCode(a + b) == CompactRoomCode(a) + CompactRoomCode(b)
  {
    if a == [] {
      assert a + b == b;
    } else {
      assert (a + b)[1..] == a[1..] + b;
      CompactOfConcatenation(a[1..], b);
    }
  }

  lemma {:induction false} CompactHasNoLowerCase(value: string)
    ensures forall i :: 0 <= i < |CompactRoomCode(value)| ==> !IsAsciiLower(CompactRoomCode(value)[i])
  {
    if value != [] {
      CompactHasNoLowerCase(value[1..]);
    }
  }

  /** Code symbols are left alone by compaction. */
  lemma {:induction false} CompactOfSymbols(symbols: string)
    requires forall i :: 0 <= i < |symbols| ==> IsCodeSymbol(symbols[i])
    ensures CompactRoomCode(symbols) == symbols
  {
    if symbols != [] {
      CompactOfSymbols(symbols[1..]);
    }
  }

  lemma CompactUndoesFormat(compact: string)
    requires IsCompact(compact)
    ensures IsNormalForm(FormatRoomCode(compact))
    ensures CompactRoomCode(FormatRoomCode(compact)) == compact
  {
    var a, b, c := compact[0..4], compact[4..8], compact[8..12];
    assert a + b + c == compact;
    DashedSlices(a, b, c);
    CompactOfDashed(a, b, c);
    CompactOfSymbols(a);
    CompactOfSymbols(b);
    CompactOfSymbols(c);
  }

  lemma DashedSlices(a: string, b: string, c: string)
    requires |a| == |b| == |c| == 4
    ensures var code := a + "-" + b + "-" + c;
      && |code| == 14 && code[4] == '-' && code[9] == '-'
      && code[0..4] == a && code[5..9] == b && code[10..14] == c
  {
  }

  lemma CompactOfDashed(a: string, b: string, c: string)
    ensures CompactRoomCode(a + "-" + b + "-" + c) == CompactRoomCode(a) + CompactRoomCode(b) + CompactRoomCode(c)
  {
    CompactOfFive(a, "-", b, "-", c);
    DashVanishes();
    WithoutEmpties(CompactRoomCode(a), CompactRoomCode(b), CompactRoomCode(c));
  }

  lemma DashVanishes()
    ensures CompactRoomCode("-") == []
  {
  }

  lemma WithoutEmpties(a: string, b: string, c: string)
    ensures a + [] + b + [] + c == a + b + c
  {
  }

  lemma CompactOfFive(a: string, d: string, b: string, e: string, c: string)
    ensures CompactRoomCode(a + d + b + e + c)
         == CompactRoomCode(a) + CompactRoomCode(d) + CompactRoomCode(b) + CompactRoomCode(e) + CompactRoomCode(c)
  {
    CompactOfConcatenation(a + d + b + e, c);
    CompactOfConcatenation(a + d + b, e);
    CompactOfConcatenation(a + d, b);
    CompactOfConcatenation(a, d);
  }

  lemma FormatUndoesCompact(code: string)
    requires IsNormalForm(code)
    ensures IsCompact(CompactRoomCode(code))
    ensures FormatRoomCode(CompactRoomCode(code)) == code
  {
    var compact := code[0..4] + code[5..9] + code[10..14];
    CompactUndoesFormat(compact);
    assert code == code[0..4] + [code[4]] + code[5..9] + [code[9]] + code[10..14];
    assert compact[0..4] == code[0..4] && compact[4..8] == code[5..9] && compact[8..12] == code[10..14];
    assert FormatRoomCode(compact) == code;
  }

  /** The check on a compacted code is exactly: twelve upper-case letters or digits. */
  lemma CheckAcceptsExactlyCompactCodes(value: string)
    ensures PassesCodeCheck(CompactRoomCode(value)) <==> IsCompact(CompactRoomCode(value))
  {
    CompactHasNoLowerCase(value);
    var compact := CompactRoomCode(value);
    if PassesCodeCheck(compact) {
      CheckedCodeHasTwelveSymbols(compact);
    }
    if IsCompact(compact) {
      Utf8LengthOfAscii(compact);
    }
  }

  /** The normaliser's results are its fixed points, and they are the normal forms. */
  lemma NormalFormsAreTheFixedPoints(value: string)
    ensures NormalizeRoomCode(value).Some? ==>
              && IsNormalForm(NormalizeRoomCode(value).value)
              && NormalizeRoomCode(NormalizeRoomCode(value).value) == NormalizeRoomCode(value)
    ensures NormalizeRoomCode(value) == Some(value) <==> IsNormalForm(value)
  {
    CheckAcceptsExactlyCompactCodes(value);
    var compact := CompactRoomCode(value);
    if IsCompact(compact) {
      CompactUndoesFormat(compact);
      CheckAcceptsExactlyCompactCodes(FormatRoomCode(compact));
    }
    if IsNormalForm(value) {
      FormatUndoesCompact(value);
    }
  }

  /** Two spellings are normalised alike exactly when they compact to the same twelve symbols. */
  lemma SpellingsOfOneCode(left: string, right: string)
    requires NormalizeRoomCode(left).Some? && NormalizeRoomCode(right).Some?
    ensures NormalizeRoomCode(left) == NormalizeRoomCode(right)
            <==> CompactRoomCode(left) == CompactRoomCode(right)
    ensures CompactRoomCode(NormalizeRoomCode(left).value) == CompactRoomCode(left)
  {
    CheckAcceptsExactlyCompactCodes(left);
    CheckAcceptsExactlyCompactCodes(right);
    CompactUndoesFormat(CompactRoomCode(left));
    CompactUndoesFormat(CompactRoomCode(right));
  }

  // ----- Generated codes -----

  const ROOM_CODE_ALPHABET := "ABCDEFGHJKLMNPQRSTUVWXYZ23456789"

  function CodeSymbol(b: byte): char {
    ROOM_CODE_ALPHABET[b % |ROOM_CODE_ALPHABET|]
  }

  /** The symbols that random material turns into, one per byte. */
  function CodeOf(material: seq<byte>): (code: string)
    ensures |code| == |material|
  {
    if material == [] then [] else [CodeSymbol(material[0])] + CodeOf(material[1..])
  }

  lemma {:induction false} CodeOfSnoc(material: seq<byte>, b: byte)
    ensures CodeOf(material + [b]) == CodeOf(material) + [CodeSymbol(b)]
  {
    if material != [] {
      assert (material + [b])[1..] == material[1..] + [b];
      CodeOfSnoc(material[1..], b);
    }
  }

  /** `RoomCredentials::generate`, once the random bytes have been drawn. */
  method Generate(material: seq<byte>) returns (roomCode: Option<string>)
    requires |material| == 12
    ensures roomCode == Some(FormatRoomCode(CodeOf(material)))
    ensures IsNormalForm(roomCode.value)
  {
    var compact := "";
    for i := 0 to 12
      invariant compact == CodeOf(material[..i])
    {
      CodeOfSnoc(material[..i], material[i]);
      assert material[..i + 1] == material[..i] + [material[i]];
      compact := compact + [ROOM_CODE_ALPHABET[material[i] % |ROOM_CODE_ALPHABET|]];
    }
    assert material[..12] == material;
    GeneratedCodesAreNormal(material);
    roomCode := NormalizeRoomCode(FormatRoomCode(compact));
  }

  lemma {:induction false} CodeOfIsSymbols(material: seq<byte>)
    ensures forall i :: 0 <= i < |material| ==> CodeOf(material)[i] == CodeSymbol(material[i])
    ensures forall i :: 0 <= i < |material| ==> IsCodeSymbol(CodeOf(material)[i])
  {
    if material != [] {
      CodeOfIsSymbols(material[1..]);
      AlphabetOfCodes(material[0] % 32);
    }
  }

  lemma AlphabetOfCodes(k: nat)
    requires k < 32
    ensures IsCodeSymbol(ROOM_CODE_ALPHABET[k])
  {
    var s := ROOM_CODE_ALPHABET;
    assert forall i :: 0 <= i < 32 ==> IsCodeSymbol(s[i]);
  }

  /** Every code the generator can produce passes the normaliser unchanged. */
  lemma GeneratedCodesAreNormal(material: seq<byte>)
    requires |material| == 12
    ensures IsNormalForm(FormatRoomCode(CodeOf(material)))
    ensures NormalizeRoomCode(FormatRoomCode(CodeOf(material))) == Some(FormatRoomCode(CodeOf(material)))
  {
    CodeOfIsSymbols(material);
    CompactUndoesFormat(CodeOf(material));
    NormalFormsAreTheFixedPoints(FormatRoomCode(CodeOf(material)));
  }

  predicate IsOverCodeAlphabet(code: string) {
    forall i :: 0 <= i < |code| ==> code[i] in ROOM_CODE_ALPHABET
  }

  function Power(base: nat, exponent: nat): nat {
    if exponent == 0 then 1 else base * Power(base, exponent - 1)
  }

  /** The bytes that map to one symbol. */
  ghost function SymbolPreimages(c: char): (bs: set<byte>) {
    set b: byte | 0 <= b < 256 && CodeSymbol(b) == c
  }

  /** The byte strings that map to a code, built symbol by symbol. */
  ghost function Preimages(code: string): set<seq<byte>> {
    if code == [] then {[]} else Prepend(SymbolPreimages(code[0]), Preimages(code[1..]))
  }

  ghost function Prepend(heads: set<byte>, tails: set<seq<byte>>): set<seq<byte>> {
    set b, t | b in heads && t in tails :: [b] + t
  }

  lemma {:induction false} PreimagesAreExact(code: string, material: seq<byte>)
    ensures material in Preimages(code) <==> CodeOf(material) == code
  {
    if code != [] && material != [] {
      PreimagesAreExact(code[1..], material[1..]);
      assert material == [material[0]] + material[1..];
      if CodeOf(material) == code {
        assert CodeOf(material)[1..] == CodeOf(material[1..]);
        assert material[0] in SymbolPreimages(code[0]);
        assert material[1..] in Preimages(code[1..]);
      }
    }
  }

  lemma SymbolPreimageCount(c: char)
    requires c in ROOM_CODE_ALPHABET
    ensures |SymbolPreimages(c)| == 8
  {
    var k: nat :| k < 32 && ROOM_CODE_ALPHABET[k] == c;
    forall b: byte
      ensures b in SymbolPreimages(c) <==> b in Residues(k, 8)
    {
      CodeAlphabetIsInjective(b % 32, k);
      ResiduesAreExact(k, 8, b);
    }
    assert SymbolPreimages(c) == Residues(k, 8);
  }

  /** The first `count` bytes that leave `k` modulo 32. */
  ghost function Residues(k: nat, count: nat): (bs: set<byte>)
    requires k < 32 && count <= 8
    ensures |bs| == count
    ensures forall b :: b in bs ==> b < 32 * count
  {
    if count == 0 then {} else Residues(k, count - 1) + {k + 32 * (count - 1)}
  }

  lemma {:induction false} ResiduesAreExact(k: nat, count: nat, b: byte)
    requires k < 32 && count <= 8
    ensures b in Residues(k, count) <==> b % 32 == k && b < 32 * count
  {
    if count > 0 {
      ResiduesAreExact(k, count - 1, b);
      OneMoreResidue(k, count - 1, b);
    }
  }

  lemma OneMoreResidue(k: nat, last: nat, n: nat)
    requires k < 32
    ensures n == k + 32 * last <==> n % 32 == k && 32 * last <= n < 32 * (last + 1)
  {
    assert n == 32 * (n / 32) + n % 32;
    if 32 * last <= n < 32 * (last + 1) {
      assert n / 32 == last;
    }
  }

  lemma CodeAlphabetIsInjective(i: nat, j: nat)
    requires i < 32 && j < 32
    ensures ROOM_CODE_ALPHABET[i] == ROOM_CODE_ALPHABET[j] <==> i == j
  {
    var s := ROOM_CODE_ALPHABET;
    assert forall k :: 0 <= k < 8 ==> s[k] == 'A' + k as char;
    assert forall k :: 8 <= k < 13 ==> s[k] == 'A' + (k + 1) as char;
    assert forall k :: 13 <= k < 24 ==> s[k] == 'A' + (k + 2) as char;
    assert forall k :: 24 <= k < 32 ==> s[k] == '2' + (k - 24) as char;
  }

  lemma {:induction false} PrependCount(heads: set<byte>, tails: set<seq<byte>>, n: nat, m: nat)
    requires |heads| == n && |tails| == m
    ensures |Prepend(heads, tails)| == n * m
    decreases n
  {
    if n == 0 {
      assert Prepend(heads, tails) == {};
    } else {
      var b :| b in heads;
      PrependCount(heads - {b}, tails, n - 1, m);
      PrependOneCount(b, tails);
      PrependSplits(heads, b, tails);
      CardinalityOfUnion(Prepend(heads - {b}, tails), Prepend({b}, tails));
      OneMoreFactor(n - 1, m);
    }
  }

  lemma CardinalityOfUnion(a: set<seq<byte>>, b: set<seq<byte>>)
    requires a !! b
    ensures |a + b| == |a| + |b|
  {
  }

  lemma OneMoreFactor(n: nat, m: nat)
    ensures (n + 1) * m == n * m + m
  {
  }

  lemma PrependSplits(heads: set<byte>, b: byte, tails: set<seq<byte>>)
    requires b in heads
    ensures Prepend(heads, tails) == Prepend(heads - {b}, tails) + Prepend({b}, tails)
    ensures Prepend(heads - {b}, tails) !! Prepend({b}, tails)
  {
    forall s | s in Prepend(heads, tails)
      ensures s in Prepend(heads - {b}, tails) + Prepend({b}, tails)
    {
      var h, t :| h in heads && t in tails && s == [h] + t;
      if h != b {
        assert h in heads - {b};
      }
    }
    forall s | s in Prepend(heads - {b}, tails)
      ensures s !in Prepend({b}, tails)
    {
      assert s[0] != b;
    }
  }

  lemma {:induction false} PrependOneCount(b: byte, tails: set<seq<byte>>)
    ensures |Prepend({b}, tails)| == |tails|
    decreases |tails|
  {
    if tails == {} {
      assert Prepend({b}, tails) == {};
    } else {
      var t :| t in tails;
      PrependOneCount(b, tails - {t});
      PrependOneSplits(b, tails, t);
    }
  }

  lemma PrependOneSplits(b: byte, tails: set<seq<byte>>, t: seq<byte>)
    requires t in tails
    ensures Prepend({b}, tails) == Prepend({b}, tails - {t}) + {[b] + t}
    ensures [b] + t !in Prepend({b}, tails - {t})
  {
    forall s | s in Prepend({b}, tails)
      ensures s in Prepend({b}, tails - {t}) + {[b] + t}
    {
      var u :| u in tails && s == [b] + u;
      if u != t {
        assert u in tails - {t};
      }
    }
    forall u | u in tails && [b] + u == [b] + t
      ensures u == t
    {
      assert ([b] + u)[1..] == u && ([b] + t)[1..] == t;
    }
  }

  /** The byte-modulo map is unbiased: every code of n symbols has 8^n equally likely sources. */
  lemma {:induction false} CodesAreUnbiased(code: string)
    requires IsOverCodeAlphabet(code)
    ensures |Preimages(code)| == Power(8, |code|)
  {
    if code != [] {
      CodesAreUnbiased(code[1..]);
      SymbolPreimageCount(code[0]);
      PrependCount(SymbolPreimages(code[0]), Preimages(code[1..]), 8, Power(8, |code| - 1));
    }
  }
}
