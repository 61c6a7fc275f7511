/** The plugin's room-code type: PCLN.Terracotta.Contracts/RoomCode.cs. */
module RoomCode {
  import opened Text
  import opened Wrappers
  import C = Credentials

  const GROUP_COUNT := 3
  const CHARACTERS_PER_GROUP := 4

  /** `Replace("-", "")` */
  function WithoutDashes(s: string): string {
    if s == [] then []
    else if s[0] == '-' then WithoutDashes(s[1..])
    else [s[0]] + WithoutDashes(s[1..])
  }

  /** A dash before every group but the first, as the builder loop inserts them. */
  function Grouped(compact: string, count: nat): string
    requires count <= |compact|
  {
    if count == 0 then []
    else
      Grouped(compact, count - 1)
      + (if count > 1 && (count - 1) % CHARACTERS_PER_GROUP == 0 then "-" else "")
      + [ToAsciiUpper(compact[count - 1])]
  }

  predicate IsCandidate(compact: string) {
    && |compact| == GROUP_COUNT * CHARACTERS_PER_GROUP
    && forall i :: 0 <= i < |compact| ==> IsAsciiAlphanumeric(compact[i])
  }

  /** What `TryNormalize` computes. */
  function Normalized(value: string): Option<string> {
    var compact := WithoutDashes(Trim(value));
    if IsCandidate(compact) then Some(Grouped(compact, |compact|)) else None
  }

  /** A null argument is a blank string as far as the first check is concerned. */
  method TryNormalize(value: Option<string>) returns (normalized: Option<string>)
    ensures normalized == (if value.None? then None else Normalized(value.value))
  {
    if value.None? {
      return None;
    }
    var trimmed := Trim(value.value);
    if trimmed == "" {
      return None;
    }
    var compact := WithoutDashes(trimmed);
    if !IsCandidate(compact) {
      return None;
    }
    var builder := "";
    for index := 0 to |compact|
      invariant builder == Grouped(compact, index)
    {
      if index > 0 && index % CHARACTERS_PER_GROUP == 0 {
        builder := builder + "-";
      }
      builder := builder + [ToAsciiUpper(compact[index])];
    }
    return Some(builder);
  }

  // ----- Agreement with the helper's normalisers -----

  function Raised(s: string): string {
    seq(|s|, i requires 0 <= i < |s| => ToAsciiUpper(s[i]))
  }

  lemma {:induction false} CompactRaisesWithoutDashes(s: string)
    requires ' ' !in s
    ensures C.CompactRoomCode(s) == Raised(WithoutDashes(s))
  {
    if s != [] {
      assert s[0] in s && forall c :: c in s[1..] ==> c in s;
      CompactRaisesWithoutDashes(s[1..]);
      RaisedOfCons(s[0], WithoutDashes(s[1..]));
    }
  }

  lemma RaisedOfCons(c: char, s: string)
    ensures Raised([c] + s) == [ToAsciiUpper(c)] + Raised(s)
  {
  }

  lemma {:induction false} WithoutDashesKeepsTheRest(s: string, c: char)
    requires c in s && c != '-'
    ensures c in WithoutDashes(s)
  {
    if s[0] != c {
      WithoutDashesKeepsTheRest(s[1..], c);
    }
    var rest := WithoutDashes(s[1..]);
    assert s[0] != '-' ==> WithoutDashes(s)[0] == s[0] && forall x :: x in rest ==> x in WithoutDashes(s);
  }

  /** The plugin's check on trimmed text, in the helper's terms. */
  lemma CandidatesAreCompactWithoutSpaces(t: string)
    ensures IsCandidate(WithoutDashes(t)) <==> ' ' !in t && C.IsCompact(C.CompactRoomCode(t))
  {
    var w := WithoutDashes(t);
    if ' ' in t {
      WithoutDashesKeepsTheRest(t, ' ');
      var i :| 0 <= i < |w| && w[i] == ' ';
      assert !IsAsciiAlphanumeric(w[i]);
    } else {
      CompactRaisesWithoutDashes(t);
      RaisedIsCompactExactlyForCandidates(w);
    }
  }

  lemma RaisedIsCompactExactlyForCandidates(w: string)
    ensures C.IsCompact(Raised(w)) <==> IsCandidate(w)
  {
    var u := Raised(w);
    forall i | 0 <= i < |w|
      ensures C.IsCodeSymbol(u[i]) <==> IsAsciiAlphanumeric(w[i])
    {
      assert u[i] == ToAsciiUpper(w[i]);
    }
    if C.IsCompact(u) {
      assert forall i :: 0 <= i < |w| ==> C.IsCodeSymbol(u[i]);
    }
  }

  /** The loop groups twelve symbols exactly as the helper formats them. */
  lemma GroupedIsFormatted(compact: string)
    requires |compact| == 12
    ensures Grouped(compact, 12) == C.FormatRoomCode(Raised(compact))
  {
    var u := Raised(compact);
    GroupedFirst(compact);
    GroupedNext(compact, 4);
    GroupedNext(compact, 8);
  }

  lemma GroupedFirst(compact: string)
    requires |compact| == 12
    ensures Grouped(compact, 4) == Raised(compact)[0..4]
  {
    GroupedRest(compact, 0);
    assert Grouped(compact, 1) == [ToAsciiUpper(compact[0])];
    RaisedSlice(compact, 0);
  }

  lemma GroupedNext(compact: string, start: nat)
    requires |compact| == 12 && (start == 4 || start == 8)
    ensures Grouped(compact, start + 4) == Grouped(compact, start) + "-" + Raised(compact)[start..start + 4]
  {
    GroupedRest(compact, start);
    GroupedDash(compact, start);
    var before, first := Grouped(compact, start), [ToAsciiUpper(compact[start])];
    var others := Raised(compact)[start + 1..start + 4];
    FourParts(before, first, others);
    RaisedSlice(compact, start);
  }

  lemma RaisedSlice(s: string, i: nat)
    requires i + 4 <= |s|
    ensures Raised(s)[i..i + 4] == [ToAsciiUpper(s[i])] + Raised(s)[i + 1..i + 4]
  {
    var u := Raised(s);
    assert u[i] == ToAsciiUpper(s[i]);
    assert u[i..i + 4] == [u[i]] + u[i + 1..i + 4];
  }

  lemma GroupedDash(compact: string, i: nat)
    requires 0 < i < |compact| && i % CHARACTERS_PER_GROUP == 0
    ensures Grouped(compact, i + 1) == Grouped(compact, i) + "-" + [ToAsciiUpper(compact[i])]
  {
  }

  lemma FourParts(before: string, first: string, others: string)
    ensures before + "-" + first + others == before + "-" + (first + others)
  {
  }

  /** The three symbols that follow the first of a group are appended without a dash. */
  lemma GroupedRest(compact: string, start: nat)
    requires |compact| == 12 && (start == 0 || start == 4 || start == 8)
    ensures Grouped(compact, start + 4) == Grouped(compact, start + 1) + Raised(compact)[start + 1..start + 4]
  {
    var a, b, c := ToAsciiUpper(compact[start + 1]), ToAsciiUpper(compact[start + 2]), ToAsciiUpper(compact[start + 3]);
    GroupedOne(compact, start + 1);
    GroupedOne(compact, start + 2);
    GroupedOne(compact, start + 3);
    ThreeMore(Grouped(compact, start + 1), a, b, c);
    assert Raised(compact)[start + 1..start + 4] == [a, b, c];
  }

  lemma GroupedOne(compact: string, i: nat)
    requires 0 < i < |compact| && i % CHARACTERS_PER_GROUP != 0
    ensures Grouped(compact, i + 1) == Grouped(compact, i) + [ToAsciiUpper(compact[i])]
  {
  }

  lemma ThreeMore(s: string, a: char, b: char, c: char)
    ensures s + [a] + [b] + [c] == s + [a, b, c]
  {
  }

  /** The plugin's result is the helper's normal form of the trimmed text, hence a fixed point of it. */
  lemma PluginResultsAreHelperFixedPoints(value: string)
    requires Normalized(value).Some?
    ensures C.NormalizeRoomCode(Trim(value)) == Normalized(value)
    ensures C.IsNormalForm(Normalized(value).value)
    ensures C.NormalizeRoomCode(Normalized(value).value) == Normalized(value)
  {
    var compact := WithoutDashes(Trim(value));
    CandidatesAreCompactWithoutSpaces(Trim(value));
    CompactRaisesWithoutDashes(Trim(value));
    GroupedIsFormatted(compact);
    C.CheckAcceptsExactlyCompactCodes(Trim(value));
    C.NormalFormsAreTheFixedPoints(Trim(value));
  }

  // ----- Which spellings each side accepts -----

  predicate IsOnlySpaces(s: string) {
    forall c :: c in s ==> c == ' '
  }

  /** What trimming takes off, in front and behind. */
  function TrimmedOff(value: string): (string, string) {
    var start := TrimStart(value);
    (value[..|value| - |start|], start[|Trim(value)|..])
  }

  /** The white space around the text consists of plain spaces. */
  predicate IsPaddedWithSpaces(value: string) {
    IsOnlySpaces(TrimmedOff(value).0) && IsOnlySpaces(TrimmedOff(value).1)
  }

  lemma TrimmedOffIsWhiteSpace(value: string)
    ensures value == TrimmedOff(value).0 + Trim(value) + TrimmedOff(value).1
    ensures forall c :: c in TrimmedOff(value).0 || c in TrimmedOff(value).1 ==> IsWhiteSpace(c)
  {
    var before := TrimStartSplits(value);
    var after := TrimEndSplits(TrimStart(value));
    assert before == TrimmedOff(value).0 && after == TrimmedOff(value).1;
    assert value == before + (Trim(value) + after);
  }

  /** White space either vanishes in compaction, and then it was spaces, or fails the code check. */
  lemma {:induction false} CompactOfWhiteSpace(s: string)
    requires forall c :: c in s ==> IsWhiteSpace(c)
    ensures forall i :: 0 <= i < |C.CompactRoomCode(s)| ==> !C.IsCodeSymbol(C.CompactRoomCode(s)[i])
    ensures C.CompactRoomCode(s) == [] <==> IsOnlySpaces(s)
  {
    if s != [] {
      assert s[0] in s && forall c :: c in s <==> c == s[0] || c in s[1..];
      CompactOfWhiteSpace(s[1..]);
    }
  }

  lemma AffixesVanish(b: string, t: string, a: string)
    requires forall i :: 0 <= i < |b| ==> !C.IsCodeSymbol(b[i])
    requires forall i :: 0 <= i < |a| ==> !C.IsCodeSymbol(a[i])
    ensures C.IsCompact(b + t + a) <==> b == [] && a == [] && C.IsCompact(t)
  {
    var compact := b + t + a;
    if b != [] {
      assert compact[0] == b[0];
    } else if a != [] {
      assert compact[|b + t|] == a[0];
    } else {
      assert compact == t;
    }
  }

  lemma CompactInParts(value: string)
    ensures var (before, after) := TrimmedOff(value);
      C.CompactRoomCode(value)
      == C.CompactRoomCode(before) + C.CompactRoomCode(Trim(value)) + C.CompactRoomCode(after)
  {
    var (before, after) := TrimmedOff(value);
    TrimmedOffIsWhiteSpace(value);
    CompactAround(before, Trim(value), after);
  }

  /** The helper accepts exactly the padded spellings of a code whose padding is spaces. */
  lemma HelperAcceptsExactly(value: string)
    ensures C.NormalizeRoomCode(value).Some?
       <==> IsPaddedWithSpaces(value) && C.IsCompact(C.CompactRoomCode(Trim(value)))
    ensures IsPaddedWithSpaces(value) ==> C.CompactRoomCode(value) == C.CompactRoomCode(Trim(value))
  {
    var (before, after) := TrimmedOff(value);
    CompactInParts(value);
    TrimmedOffIsWhiteSpace(value);
    CompactOfWhiteSpace(before);
    CompactOfWhiteSpace(after);
    AffixesVanish(C.CompactRoomCode(before), C.CompactRoomCode(Trim(value)), C.CompactRoomCode(after));
    C.CheckAcceptsExactlyCompactCodes(value);
  }

  /** The plugin accepts exactly the padded spellings of a code that have no space inside. */
  lemma PluginAcceptsExactly(value: string)
    ensures Normalized(value).Some? <==> ' ' !in Trim(value) && C.IsCompact(C.CompactRoomCode(Trim(value)))
  {
    CandidatesAreCompactWithoutSpaces(Trim(value));
  }

  /** Whenever both sides accept a spelling they agree on the code. */
  lemma BothSidesAgree(value: string)
    requires Normalized(value).Some? && C.NormalizeRoomCode(value).Some?
    ensures Normalized(value) == C.NormalizeRoomCode(value)
  {
    HelperAcceptsExactly(value);
    PluginResultsAreHelperFixedPoints(value);
  }

  /**
   * Exactly when the two sides treat a spelling alike: of what the plugin accepts, when it is padded with plain
   * spaces only; of what the helper accepts, when it has no space inside; of what either accepts, when both hold.
   */
  lemma SidesAgreeExactly(value: string)
    ensures Normalized(value).Some? ==> (C.NormalizeRoomCode(value).Some? <==> IsPaddedWithSpaces(value))
    ensures C.NormalizeRoomCode(value).Some? ==> (Normalized(value).Some? <==> ' ' !in Trim(value))
    ensures Normalized(value).Some? || C.NormalizeRoomCode(value).Some? ==>
              (Normalized(value) == C.NormalizeRoomCode(value)
               <==> IsPaddedWithSpaces(value) && ' ' !in Trim(value))
  {
    HelperAcceptsExactly(value);
    PluginAcceptsExactly(value);
    if Normalized(value).Some? && C.NormalizeRoomCode(value).Some? {
      BothSidesAgree(value);
    }
  }

  // ----- Spellings that only one side accepts -----

  /** A leading tab is accepted by the plugin only: it trims all white space, the helper drops only spaces. */
  lemma OnlyThePluginAcceptsATab(core: string)
    requires C.IsNormalForm(core)
    ensures Normalized("\t" + core).Some? && C.NormalizeRoomCode("\t" + core).None?
  {
    var value := "\t" + core;
    NormalFormsHaveNoSpace(core);
    TabIsTrimmed(core);
    C.FormatUndoesCompact(core);
    PluginAcceptsExactly(value);
    assert TrimmedOff(value).0[0] == '\t';
    assert '\t' in TrimmedOff(value).0;
    SidesAgreeExactly(value);
  }

  lemma TabIsTrimmed(core: string)
    requires core != [] && !IsWhiteSpace(core[0]) && !IsWhiteSpace(core[|core| - 1])
    ensures Trim("\t" + core) == core && TrimStart("\t" + core) == core
  {
    assert ("\t" + core)[1..] == core;
    assert TrimStart(core) == core && TrimEnd(core) == core;
  }

  lemma NormalFormsHaveNoSpace(core: string)
    requires C.IsNormalForm(core)
    ensures forall c :: c in core ==> !IsWhiteSpace(c)
  {
    var compact := core[0..4] + core[5..9] + core[10..14];
    forall i | 0 <= i < 14 && i != 4 && i != 9
      ensures C.IsCodeSymbol(core[i])
    {
      var k := if i < 4 then i else if i < 9 then i - 1 else i - 2;
      assert core[i] == compact[k];
    }
  }

  /** Spaces between the groups are accepted by the helper only. */
  lemma OnlyTheHelperAcceptsInnerSpaces(compact: string)
    requires C.IsCompact(compact)
    ensures var spaced := compact[0..4] + " " + compact[4..12];
      C.NormalizeRoomCode(spaced) == Some(C.FormatRoomCode(compact)) && Normalized(spaced).None?
  {
    var left, right := compact[0..4], compact[4..12];
    var spaced := left + " " + right;
    SpacedCompact(left, right);
    assert left + right == compact;
    C.CheckAcceptsExactlyCompactCodes(spaced);
    assert C.IsCodeSymbol(compact[0]) && C.IsCodeSymbol(compact[11]);
    assert spaced[0] == compact[0] && spaced[12] == compact[11];
    assert Trim(spaced) == spaced;
    assert spaced[4] == ' ';
    PluginAcceptsExactly(spaced);
  }

  lemma SpacedCompact(left: string, right: string)
    requires forall i :: 0 <= i < |left| ==> C.IsCodeSymbol(left[i])
    requires forall i :: 0 <= i < |right| ==> C.IsCodeSymbol(right[i])
    ensures C.CompactRoomCode(left + " " + right) == left + right
  {
    C.CompactOfSymbols(left);
    C.CompactOfSymbols(right);
    CompactOfWhiteSpace(" ");
    CompactAround(left, " ", right);
    assert left + [] == left;
  }

  lemma CompactAround(left: string, middle: string, right: string)
    ensures C.CompactRoomCode(left + middle + right)
         == C.CompactRoomCode(left) + C.CompactRoomCode(middle) + C.CompactRoomCode(right)
  {
    C.CompactOfConcatenation(left + middle, right);
    C.CompactOfConcatenation(left, middle);
  }
}
