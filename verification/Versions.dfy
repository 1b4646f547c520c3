/**
 * Extension version numbers: the parser and printer behind `normalizeVersion` and the
 * component-by-component comparison of `isNewerVersion`
 * (apps/extension/shared/update-status.ts).
 */
module Versions {
  import opened Js
  import Text

  const MAX_COMPONENT := 65535
  const BASE := 65536

  predicate IsDigit(c: char) { '0' <= c <= '9' }

  predicate AllDigits(s: string) { forall i :: 0 <= i < |s| ==> IsDigit(s[i]) }

  /** Decimal digits to number, as `Number` reads them. */
  function ParseNat(digits: string): nat
    requires AllDigits(digits)
  {
    if digits == [] then 0
    else 10 * ParseNat(digits[..|digits| - 1]) + (digits[|digits| - 1] as int - '0' as int)
  }

  /** Number to decimal digits, as `String(n)` prints them. */
  function PrintNat(n: nat): (digits: string)
    ensures digits != [] && AllDigits(digits)
  {
    var last := [('0' as int + n % 10) as char];
    if n < 10 then last else PrintNat(n / 10) + last
  }

  lemma {:induction false} ParsePrint(n: nat)
    ensures ParseNat(PrintNat(n)) == n
  {
    if n >= 10 {
      ParsePrint(n / 10);
      assert PrintNat(n)[..|PrintNat(n)| - 1] == PrintNat(n / 10);
    }
  }

  lemma {:induction false} ZeroReadsTheSame(digits: string)
    requires AllDigits(digits)
    ensures AllDigits("0" + digits) && ParseNat("0" + digits) == ParseNat(digits)
  {
    var padded := "0" + digits;
    if digits != [] {
      ZeroReadsTheSame(digits[..|digits| - 1]);
      assert padded[..|padded| - 1] == "0" + digits[..|digits| - 1];
    } else {
      assert padded[..0] == [];
    }
  }

  /** Exactly the ten decimal digits are digits, and each reads with its own value at ten times the place before it. */
  lemma DigitsAreDecimal(digits: string, c: char)
    requires AllDigits(digits)
    ensures IsDigit(c) <==> c in "0123456789"
    ensures ParseNat("") == 0
    ensures forall d :: 0 <= d < 10 && c == "0123456789"[d] ==>
      AllDigits(digits + [c]) && ParseNat(digits + [c]) == 10 * ParseNat(digits) + d
  {
    if d :| 0 <= d < 10 && c == "0123456789"[d] {
      assert (digits + [c])[..|digits|] == digits;
    }
    if IsDigit(c) {
      assert c == "0123456789"[c as int - '0' as int];
    }
  }

  /** A number is printed as the one digit string without a leading zero that reads as it. */
  lemma {:induction false} PrintIsShortest(n: nat)
    ensures ParseNat(PrintNat(n)) == n && (PrintNat(n)[0] == '0' ==> PrintNat(n) == "0")
  {
    ParsePrint(n);
    assert ParseNat("0") == 0 by { assert "0"[..0] == ""; }
    if n >= 10 {
      PrintIsShortest(n / 10);
      assert PrintNat(n)[0] == PrintNat(n / 10)[0];
    }
  }

  /** The pattern of line 25: one run of digits, then at most `groups` times a dot and a run of digits. */
  predicate Matches(s: string, groups: nat)
    decreases |s|
  {
    exists k :: 1 <= k <= |s| && AllDigits(s[..k])
      && (k == |s| || (groups > 0 && s[k] == '.' && Matches(s[k + 1..], groups - 1)))
  }

  predicate DigitParts(parts: seq<string>, groups: nat) {
    1 <= |parts| <= groups + 1 && forall i :: 0 <= i < |parts| ==> parts[i] != "" && AllDigits(parts[i])
  }

  /** The pattern accepts exactly the strings whose dot-separated pieces are one to `groups + 1` runs of digits. */
  lemma {:induction false} MatchesIsSplit(s: string, groups: nat)
    ensures Matches(s, groups) <==> DigitParts(Text.Split(s, '.'), groups)
    decreases |s|
  {
    if Matches(s, groups) {
      MatchSplits(s, groups);
    }
    if DigitParts(Text.Split(s, '.'), groups) {
      SplitMatches(s, groups);
    }
  }

  lemma DigitsHaveNoDot(s: string)
    requires AllDigits(s)
    ensures '.' !in s
  {
  }

  lemma {:induction false} MatchSplits(s: string, groups: nat)
    requires Matches(s, groups)
    ensures DigitParts(Text.Split(s, '.'), groups)
    decreases |s|
  {
    hide AllDigits;
    var k :| 1 <= k <= |s| && AllDigits(s[..k])
      && (k == |s| || (groups > 0 && s[k] == '.' && Matches(s[k + 1..], groups - 1)));
    var head := s[..k];
    DigitsHaveNoDot(head);
    if k == |s| {
      assert head == s;
      Text.SplitWhole(s, '.');
    } else {
      var rest := s[k + 1..];
      MatchSplits(rest, groups - 1);
      Text.SplitFirst(head, rest, '.');
      assert s == head + ['.'] + rest;
    }
  }

  lemma {:induction false} SplitMatches(s: string, groups: nat)
    requires DigitParts(Text.Split(s, '.'), groups)
    ensures Matches(s, groups)
    decreases |s|
  {
    var parts := Text.Split(s, '.');
    Text.JoinOfSplit(s, '.');
    if |parts| == 1 {
      MatchesUpTo(s, groups, parts[0], "");
    } else {
      var rest := Text.Join(parts[1..], '.');
      Text.SplitOfJoin(parts[1..], '.');
      SplitMatches(rest, groups - 1);
      MatchesUpTo(s, groups, parts[0], rest);
    }
  }

  lemma MatchesUpTo(s: string, groups: nat, head: string, rest: string)
    requires head != "" && AllDigits(head)
    requires s == head || (s == head + ['.'] + rest && groups > 0 && Matches(rest, groups - 1))
    ensures Matches(s, groups)
  {
    var k := |head|;
    assert s[..k] == head;
    if s != head {
      assert s[k + 1..] == rest;
    }
  }

  function ParseAll(parts: seq<string>): (numbers: seq<nat>)
    requires forall i :: 0 <= i < |parts| ==> AllDigits(parts[i])
    ensures |numbers| == |parts|
    ensures forall i :: 0 <= i < |parts| ==> numbers[i] == ParseNat(parts[i])
  {
    seq(|parts|, i requires 0 <= i < |parts| => ParseNat(parts[i]))
  }

  function PrintAll(numbers: seq<nat>): (parts: seq<string>)
    ensures |parts| == |numbers|
    ensures forall i :: 0 <= i < |parts| ==> parts[i] == PrintNat(numbers[i])
  {
    seq(|numbers|, i requires 0 <= i < |numbers| => PrintNat(numbers[i]))
  }

  predicate ValidComponents(numbers: seq<nat>) {
    1 <= |numbers| <= 4 && forall i :: 0 <= i < |numbers| ==> numbers[i] <= MAX_COMPONENT
  }

  /** The numbers that `normalizeVersion` reads, or `None` where it returns null. */
  function Components(version: JsValue): (r: Option<seq<nat>>)
    ensures r.Some? ==> ValidComponents(r.value)
  {
    if !version.Str? then None
    else
      var trimmed := Text.Trim(IsSpace, version.s);
      if !Matches(trimmed, 3) then None
      else
        MatchesIsSplit(trimmed, 3);
        var numbers := ParseAll(Text.Split(trimmed, '.'));
        if exists i :: 0 <= i < |numbers| && numbers[i] > MAX_COMPONENT then None else Some(numbers)
  }

  /** `components.join('.')` */
  function Render(numbers: seq<nat>): string
    requires |numbers| > 0
  {
    Text.Join(PrintAll(numbers), '.')
  }

  function NormalizeVersion(version: JsValue): Option<string> {
    match Components(version)
    case None => None
    case Some(numbers) => Some(Render(numbers))
  }

  /** A version in the one spelling that `normalizeVersion` produces. */
  predicate Canonical(s: string) {
    NormalizeVersion(Str(s)) == Some(s)
  }

  lemma {:induction false} DigitEnds(parts: seq<string>)
    requires |parts| > 0
    requires forall i :: 0 <= i < |parts| ==> parts[i] != "" && AllDigits(parts[i])
    ensures var s := Text.Join(parts, '.'); s != "" && IsDigit(s[0]) && IsDigit(s[|s| - 1])
  {
    if |parts| > 1 {
      DigitEnds(parts[1..]);
    }
  }

  /** Printing one to four numbers in range and parsing the text gives the numbers back. */
  lemma RenderParses(numbers: seq<nat>)
    requires ValidComponents(numbers)
    ensures Components(Str(Render(numbers))) == Some(numbers)
  {
    var parts := PrintAll(numbers);
    var s := Text.Join(parts, '.');
    DigitEnds(parts);
    Text.TrimFixed(IsSpace, s);
    Text.SplitOfJoin(parts, '.');
    MatchesIsSplit(s, 3);
    forall i | 0 <= i < |numbers| ensures ParseNat(parts[i]) == numbers[i] {
      ParsePrint(numbers[i]);
    }
    assert ParseAll(parts) == numbers;
  }

  /** What comes out is canonical, so normalizing it again changes nothing. */
  lemma NormalizeIsCanonical(version: JsValue)
    requires NormalizeVersion(version).Some?
    ensures Canonical(NormalizeVersion(version).value)
    ensures Components(Str(NormalizeVersion(version).value)) == Components(version)
  {
    RenderParses(Components(version).value);
  }

  /** The canonical spellings are exactly the prints of valid number lists, one spelling for each list. */
  lemma CanonicalIsUniquePrint(s: string)
    ensures Canonical(s) <==> exists numbers :: ValidComponents(numbers) && Render(numbers) == s
    ensures forall a, b :: ValidComponents(a) && ValidComponents(b) && Render(a) == Render(b) ==> a == b
  {
    if Canonical(s) {
      assert ValidComponents(Components(Str(s)).value) && Render(Components(Str(s)).value) == s;
    }
    if numbers :| ValidComponents(numbers) && Render(numbers) == s {
      RenderParses(numbers);
    }
    forall a, b | ValidComponents(a) && ValidComponents(b) && Render(a) == Render(b) ensures a == b {
      RenderParses(a);
      RenderParses(b);
    }
  }

  /** Two accepted inputs get the same spelling exactly when they list the same numbers. */
  lemma SameSpellingSameNumbers(x: JsValue, y: JsValue)
    requires NormalizeVersion(x).Some? && NormalizeVersion(y).Some?
    ensures NormalizeVersion(x) == NormalizeVersion(y) <==> Components(x) == Components(y)
  {
    RenderParses(Components(x).value);
    RenderParses(Components(y).value);
  }

  /** White space around a version is ignored, whether the version is accepted or not. */
  lemma PaddingIgnored(before: string, s: string, after: string)
    requires forall i :: 0 <= i < |before| ==> IsSpace(before[i])
    requires forall i :: 0 <= i < |after| ==> IsSpace(after[i])
    ensures NormalizeVersion(Str(before + s + after)) == NormalizeVersion(Str(s))
  {
    Text.TrimPadding(IsSpace, before, s, after);
  }

  lemma JoinedTrims(parts: seq<string>)
    requires |parts| > 0 && DigitParts(parts, |parts| - 1)
    ensures Text.Trim(IsSpace, Text.Join(parts, '.')) == Text.Join(parts, '.')
  {
    hide AllDigits, Text.Join, Text.Trim;
    DigitEnds(parts);
    Text.TrimFixed(IsSpace, Text.Join(parts, '.'));
  }

  /** What `normalizeVersion` reads from digit runs joined by dots. */
  lemma JoinedComponents(parts: seq<string>)
    requires |parts| > 0 && DigitParts(parts, |parts| - 1)
    ensures Components(Str(Text.Join(parts, '.'))) ==
      if |parts| > 4 || exists i :: 0 <= i < |parts| && ParseAll(parts)[i] > MAX_COMPONENT then None
      else Some(ParseAll(parts))
  {
    hide Matches, AllDigits, ParseNat, Text.Join, Text.Split, Text.Trim, IsSpace;
    var s := Text.Join(parts, '.');
    JoinedTrims(parts);
    forall i | 0 <= i < |parts| ensures '.' !in parts[i] {
      DigitsHaveNoDot(parts[i]);
    }
    Text.SplitOfJoin(parts, '.');
    MatchesIsSplit(s, 3);
  }

  /** A leading zero in any component never changes the result ("01.2" is "1.2"), whether it is accepted or not. */
  lemma LeadingZero(parts: seq<string>, i: nat)
    requires i < |parts| && DigitParts(parts, |parts| - 1)
    ensures NormalizeVersion(Str(Text.Join(parts[i := "0" + parts[i]], '.')))
         == NormalizeVersion(Str(Text.Join(parts, '.')))
  {
    var padded := parts[i := "0" + parts[i]];
    ZeroReadsTheSame(parts[i]);
    assert ParseAll(padded) == ParseAll(parts);
    JoinedComponents(parts);
    JoinedComponents(padded);
  }

  /**
   * What `normalizeVersion` accepts, as it is: a string that, trimmed and cut at its dots, has one to four runs
   * of digits that read as at most 65535.  What it returns is these numbers printed and joined by dots.
   */
  lemma NormalizeExactly(version: JsValue)
    ensures NormalizeVersion(version).Some? <==>
      && version.Str?
      && var parts := Text.Split(Text.Trim(IsSpace, version.s), '.');
         |parts| <= 4
         && forall i :: 0 <= i < |parts| ==> parts[i] != "" && AllDigits(parts[i]) && ParseNat(parts[i]) <= 65535
    ensures NormalizeVersion(version).Some? ==>
      var parts := Text.Split(Text.Trim(IsSpace, version.s), '.');
      && (forall i :: 0 <= i < |parts| ==> AllDigits(parts[i]))
      && NormalizeVersion(version) == Some(Text.Join(PrintAll(ParseAll(parts)), '.'))
  {
    hide Matches, AllDigits, ParseNat, Text.Join, Text.Split, Text.Trim, IsSpace;
    if version.Str? {
      MatchesIsSplit(Text.Trim(IsSpace, version.s), 3);
    }
  }

  /** Of lists of one to four numbers exactly those up to 65535 make a version, in the spelling that prints them. */
  lemma PrintedExactly(numbers: seq<nat>)
    requires 1 <= |numbers| <= 4
    ensures NormalizeVersion(Str(Render(numbers))) ==
      if forall i :: 0 <= i < |numbers| ==> numbers[i] <= 65535 then Some(Render(numbers)) else None
  {
    hide ParseNat, PrintNat, Components;
    forall i | 0 <= i < |numbers| ensures ParseNat(PrintAll(numbers)[i]) == numbers[i] {
      ParsePrint(numbers[i]);
    }
    assert ParseAll(PrintAll(numbers)) == numbers;
    JoinedComponents(PrintAll(numbers));
  }

  /* ---------- Comparison ---------- */

  /** Component `i`, where a missing one counts as zero. */
  function Part(numbers: seq<nat>, i: nat): nat {
    if i < |numbers| then numbers[i] else 0
  }

  /** The base-65536 number of the four zero-padded components. */
  function Number(numbers: seq<nat>): nat {
    ((Part(numbers, 0) * BASE + Part(numbers, 1)) * BASE + Part(numbers, 2)) * BASE + Part(numbers, 3)
  }

  /** The number of a version; anything that is not a version counts as zero. */
  function RankOf(version: JsValue): nat {
    match Components(version)
    case None => 0
    case Some(numbers) => Number(numbers)
  }

  function Rank(version: string): nat {
    RankOf(Str(version))
  }

  predicate IsVersion(version: string) { Components(Str(version)).Some? }

  /** What `isNewerVersion` decides, said through the numbers. */
  predicate NewerThan(candidate: string, installed: string) {
    IsVersion(candidate) && IsVersion(installed) && Rank(candidate) > Rank(installed)
  }

  /** The number fits in 64 bits. */
  lemma NumberBound(numbers: seq<nat>)
    requires ValidComponents(numbers)
    ensures Number(numbers) < 0x1_0000_0000_0000_0000
  {
    assert forall i :: 0 <= i < 4 ==> Part(numbers, i) <= MAX_COMPONENT;
  }

  /** The first component that differs decides. */
  lemma FirstDifference(a: seq<nat>, b: seq<nat>, k: nat)
    requires ValidComponents(a) && ValidComponents(b) && k < 4
    requires forall i :: 0 <= i < k ==> Part(a, i) == Part(b, i)
    requires Part(a, k) > Part(b, k)
    ensures Number(a) > Number(b)
  {
    assert forall i :: 0 <= i < 4 ==> Part(a, i) <= MAX_COMPONENT && Part(b, i) <= MAX_COMPONENT;
    assert k == 0 || k == 1 || k == 2 || k == 3;
  }

  /** Ties are exactly the equal padded tuples, so "1.2" and "1.2.0" tie and nothing else does. */
  lemma TiesAreEqualTuples(a: seq<nat>, b: seq<nat>)
    requires ValidComponents(a) && ValidComponents(b)
    ensures Number(a) == Number(b) <==> forall i :: 0 <= i < 4 ==> Part(a, i) == Part(b, i)
  {
    if k: nat :| k < 4 && Part(a, k) != Part(b, k) {
      var first := if Part(a, 0) != Part(b, 0) then 0
      else if Part(a, 1) != Part(b, 1) then 1
      else if Part(a, 2) != Part(b, 2) then 2
      else 3;
      if Part(a, first) > Part(b, first) {
        FirstDifference(a, b, first);
      } else {
        FirstDifference(b, a, first);
      }
    }
  }

  /** Of two versions exactly one is newer, unless their padded components are all equal. */
  lemma Trichotomy(x: string, y: string)
    requires IsVersion(x) && IsVersion(y)
    ensures
      var a, b := Components(Str(x)).value, Components(Str(y)).value;
      var tied := forall i :: 0 <= i < 4 ==> Part(a, i) == Part(b, i);
      && !(NewerThan(x, y) && NewerThan(y, x))
      && (tied <==> !NewerThan(x, y) && !NewerThan(y, x))
  {
    TiesAreEqualTuples(Components(Str(x)).value, Components(Str(y)).value);
  }

  /**
   * The order of versions, without their numbers: at the first place where they differ, with zeros for missing
   * components, the greater component makes the newer version.
   */
  lemma RankExactly(x: JsValue, y: JsValue)
    requires Components(x).Some? && Components(y).Some?
    ensures
      var a, b := Components(x).value, Components(y).value;
      RankOf(x) > RankOf(y) <==>
      exists k :: 0 <= k < 4 && (if k < |a| then a[k] else 0) > (if k < |b| then b[k] else 0)
        && forall i :: 0 <= i < k ==> (if i < |a| then a[i] else 0) == (if i < |b| then b[i] else 0)
  {
    hide Components, Number;
    var a, b := Components(x).value, Components(y).value;
    assert forall i: nat :: Part(a, i) == (if i < |a| then a[i] else 0);
    assert forall i: nat :: Part(b, i) == (if i < |b| then b[i] else 0);
    TiesAreEqualTuples(a, b);
    if k: nat :| k < 4 && Part(a, k) != Part(b, k) && forall i :: 0 <= i < k ==> Part(a, i) == Part(b, i) {
      if Part(a, k) > Part(b, k) {
        FirstDifference(a, b, k);
      } else {
        FirstDifference(b, a, k);
      }
    } else {
      assert Part(a, 0) == Part(b, 0) && Part(a, 1) == Part(b, 1);
      assert Part(a, 2) == Part(b, 2) && Part(a, 3) == Part(b, 3);
    }
  }

  /** A candidate is newer exactly when both are versions and it ranks higher; "1.10.0" is newer than "1.9.0". */
  lemma NewerExactly(x: string, y: string)
    ensures NewerThan(x, y) <==>
      NormalizeVersion(Str(x)).Some? && NormalizeVersion(Str(y)).Some? && RankOf(Str(x)) > RankOf(Str(y))
  {
    hide Components;
  }

  /** Splitting a canonical version and reading each piece gives its components. */
  lemma PartsOfCanonical(numbers: seq<nat>)
    requires ValidComponents(numbers)
    ensures DigitParts(Text.Split(Render(numbers), '.'), 3)
    ensures ParseAll(Text.Split(Render(numbers), '.')) == numbers
  {
    var parts := PrintAll(numbers);
    Text.SplitOfJoin(parts, '.');
    forall i | 0 <= i < |numbers| ensures ParseNat(parts[i]) == numbers[i] {
      ParsePrint(numbers[i]);
    }
  }

  /** The comparison loop, which walks the components side by side and stops at the first difference. */
  method IsNewerVersion(candidate: string, installed: string) returns (newer: bool)
    ensures newer == NewerThan(candidate, installed)
  {
    hide Components, Matches, AllDigits, IsDigit, Number;
    var next := NormalizeVersion(Str(candidate));
    var current := NormalizeVersion(Str(installed));
    if next.None? || current.None? {
      return false;
    }
    ghost var a, b := Components(Str(candidate)).value, Components(Str(installed)).value;
    PartsOfCanonical(a);
    PartsOfCanonical(b);
    var nextParts := ParseAll(Text.Split(next.value, '.'));
    var currentParts := ParseAll(Text.Split(current.value, '.'));
    var index := 0;
    while index < |nextParts| || index < |currentParts|
      invariant 0 <= index <= 4
      invariant forall j :: 0 <= j < index ==> Part(a, j) == Part(b, j)
      decreases 4 - index
    {
      var difference := Part(nextParts, index) - Part(currentParts, index);
      if difference != 0 {
        if difference > 0 {
          FirstDifference(a, b, index);
        } else {
          FirstDifference(b, a, index);
        }
        return difference > 0;
      }
      index := index + 1;
    }
    TiesAreEqualTuples(a, b);
    return false;
  }
}
