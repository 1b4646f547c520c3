/** The parts of JavaScript's value and string behaviour that the modelled code leans on. */
module Js {

  datatype Option<+T> = None | Some(value: T)

  /** A value of unknown type: a stored item, a message field, a parsed JSON body.  An array is an `Obj`. */
  datatype JsValue =
    | Undefined
    | Null
    | Bool(b: bool)
    | Num(n: real)
    | Str(s: string)
    | Obj(fields: map<string, JsValue>)

  /** `value?.name` */
  function Field(value: JsValue, name: string): JsValue {
    if value.Obj? && name in value.fields then value.fields[name] else Undefined
  }

  predicate Truthy(value: JsValue) {
    match value
    case Undefined => false
    case Null => false
    case Bool(b) => b
    case Num(n) => n != 0.0
    case Str(s) => s != ""
    case Obj(_) => true
  }

  /** The white space and line terminators that `String.prototype.trim` removes. */
  predicate IsSpace(c: char) {
    '\U{9}' <= c <= '\U{D}' || c == ' ' || c == '\U{A0}' || c == '\U{1680}' || '\U{2000}' <= c <= '\U{200A}'
    || c == '\U{2028}' || c == '\U{2029}' || c == '\U{202F}' || c == '\U{205F}' || c == '\U{3000}' || c == '\U{FEFF}'
  }
}

/** Trimming, splitting and joining of strings, shared by the version, MIME and file name code. */
module Text {

  function TrimStart(space: char -> bool, s: string): (r: string)
    ensures r == [] || !space(r[0])
  {
    if s != [] && space(s[0]) then TrimStart(space, s[1..]) else s
  }

  function TrimEnd(space: char -> bool, s: string): (r: string)
    ensures r == [] || !space(r[|r| - 1])
    ensures r <= s
  {
    if s != [] && space(s[|s| - 1]) then TrimEnd(space, s[..|s| - 1]) else s
  }

  function Trim(space: char -> bool, s: string): (r: string)
    ensures r == [] || (!space(r[0]) && !space(r[|r| - 1]))
  {
    TrimEnd(space, TrimStart(space, s))
  }

  /** Nothing to cut at either end: trimming is the identity. */
  lemma TrimFixed(space: char -> bool, s: string)
    requires s == [] || (!space(s[0]) && !space(s[|s| - 1]))
    ensures Trim(space, s) == s
  {
  }

  /** Surrounding white space never changes what `Trim` returns. */
  lemma {:induction false} TrimPadding(space: char -> bool, before: string, s: string, after: string)
    requires forall i :: 0 <= i < |before| ==> space(before[i])
    requires forall i :: 0 <= i < |after| ==> space(after[i])
    ensures Trim(space, before + s + after) == Trim(space, s)
    decreases |before| + |after|
  {
    if before != [] {
      assert (before + s + after)[1..] == before[1..] + s + after;
      TrimPadding(space, before[1..], s, after);
    } else if after != [] {
      var whole, shorter := before + s + after, before + s + after[..|after| - 1];
      assert whole[..|whole| - 1] == shorter;
      TrimLastSpace(space, whole);
      TrimPadding(space, before, s, after[..|after| - 1]);
    } else {
      assert before + s + after == s;
    }
  }

  lemma {:induction false} TrimLastSpace(space: char -> bool, s: string)
    requires s != [] && space(s[|s| - 1])
    ensures Trim(space, s) == Trim(space, s[..|s| - 1])
  {
    var init := s[..|s| - 1];
    if !space(s[0]) {
      assert TrimStart(space, s) == s && TrimStart(space, init) == init;
    } else if |s| > 1 {
      TrimLastSpace(space, s[1..]);
      assert s[1..][..|s| - 2] == init[1..];
    }
  }

  /** `s.split(separator)` for a one-character separator. */
  function Split(s: string, separator: char): (parts: seq<string>)
    ensures |parts| > 0
    ensures forall i :: 0 <= i < |parts| ==> separator !in parts[i]
  {
    if s == [] then [[]]
    else
      var rest := Split(s[1..], separator);
      if s[0] == separator then [[]] + rest else [[s[0]] + rest[0]] + rest[1..]
  }

  /** `parts.join(separator)` */
  function Join(parts: seq<string>, separator: char): string
    requires |parts| > 0
  {
    if |parts| == 1 then parts[0] else parts[0] + [separator] + Join(parts[1..], separator)
  }

  /** Growing the first part grows the joined text at its front. */
  lemma JoinGrows(c: char, parts: seq<string>, separator: char)
    requires |parts| > 0
    ensures Join([[c] + parts[0]] + parts[1..], separator) == [c] + Join(parts, separator)
  {
    var grown := [[c] + parts[0]] + parts[1..];
    assert grown[1..] == parts[1..];
    if |parts| > 1 {
      var rest := Join(parts[1..], separator);
      assert [c] + parts[0] + [separator] + rest == [c] + (parts[0] + [separator] + rest);
    }
  }

  lemma {:induction false} JoinOfSplit(s: string, separator: char)
    ensures Join(Split(s, separator), separator) == s
  {
    if s != [] {
      var rest := Split(s[1..], separator);
      JoinOfSplit(s[1..], separator);
      if s[0] == separator {
        assert ([[]] + rest)[1..] == rest;
      } else {
        JoinGrows(s[0], rest, separator);
      }
    }
  }

  /** A piece without the separator, then the separator, splits off as the first part. */
  lemma {:induction false} SplitFirst(head: string, tail: string, separator: char)
    requires separator !in head
    ensures Split(head + [separator] + tail, separator) == [head] + Split(tail, separator)
  {
    var s := head + [separator] + tail;
    if head == [] {
      assert s[1..] == tail;
    } else {
      assert s[1..] == head[1..] + [separator] + tail;
      SplitFirst(head[1..], tail, separator);
      assert head == [head[0]] + head[1..];
    }
  }

  lemma {:induction false} SplitWhole(s: string, separator: char)
    requires separator !in s
    ensures Split(s, separator) == [s]
  {
    if s != [] {
      SplitWhole(s[1..], separator);
      assert s == [s[0]] + s[1..];
    }
  }

  lemma {:induction false} SplitOfJoin(parts: seq<string>, separator: char)
    requires |parts| > 0
    requires forall i :: 0 <= i < |parts| ==> separator !in parts[i]
    ensures Split(Join(parts, separator), separator) == parts
  {
    if |parts| == 1 {
      SplitWhole(parts[0], separator);
    } else {
      SplitOfJoin(parts[1..], separator);
      SplitFirst(parts[0], Join(parts[1..], separator), separator);
    }
  }

  function LowerChar(c: char): char {
    if 'A' <= c <= 'Z' then (c as int + 32) as char else c
  }

  /** ASCII lower-casing; every other character is left alone. */
  function Lower(s: string): (r: string)
    ensures |r| == |s|
    ensures forall i :: 0 <= i < |s| ==> r[i] == LowerChar(s[i])
  {
    seq(|s|, i requires 0 <= i < |s| => LowerChar(s[i]))
  }

  /** `upper` is an ASCII capital and `lower` the same letter in lower case. */
  predicate CasePair(upper: char, lower: char) {
    'A' <= upper <= 'Z' && lower as int == upper as int + 32
  }

  /** The two strings differ at most in the case of ASCII letters. */
  predicate SameLetters(a: string, b: string) {
    |a| == |b| && forall i :: 0 <= i < |a| ==> a[i] == b[i] || CasePair(a[i], b[i]) || CasePair(b[i], a[i])
  }

  /** Lower-casing forgets exactly the case of ASCII letters, and leaves no capital. */
  lemma LowerExactly(a: string, b: string)
    ensures Lower(a) == Lower(b) <==> SameLetters(a, b)
    ensures forall i :: 0 <= i < |a| ==> !('A' <= Lower(a)[i] <= 'Z')
  {
    if Lower(a) == Lower(b) {
      forall i | 0 <= i < |a| ensures a[i] == b[i] || CasePair(a[i], b[i]) || CasePair(b[i], a[i]) {
        assert LowerChar(a[i]) == Lower(a)[i] == Lower(b)[i] == LowerChar(b[i]);
      }
    }
  }

  predicate EndsWith(s: string, suffix: string) {
    |suffix| <= |s| && s[|s| - |suffix|..] == suffix
  }

  lemma EndsWithExactly(s: string, suffix: string)
    ensures EndsWith(s, suffix) <==> exists stem :: s == stem + suffix
  {
    if EndsWith(s, suffix) {
      assert s == s[..|s| - |suffix|] + suffix;
    }
  }

  predicate AllSpace(space: char -> bool, s: string) {
    forall i :: 0 <= i < |s| ==> space(s[i])
  }

  lemma {:induction false} StartCutsSpace(space: char -> bool, s: string) returns (before: string)
    ensures s == before + TrimStart(space, s) && AllSpace(space, before)
  {
    if s != "" && space(s[0]) {
      before := StartCutsSpace(space, s[1..]);
      before := [s[0]] + before;
    } else {
      before := "";
    }
  }

  lemma {:induction false} EndCutsSpace(space: char -> bool, s: string)
    ensures AllSpace(space, s[|TrimEnd(space, s)|..])
  {
    if s != "" && space(s[|s| - 1]) {
      var init := s[..|s| - 1];
      EndCutsSpace(space, init);
      assert s[|TrimEnd(space, s)|..] == init[|TrimEnd(space, init)|..] + [s[|s| - 1]];
    }
  }

  /** What `Trim` cuts off at either end is white space. */
  lemma {:induction false} TrimCutsSpace(space: char -> bool, s: string) returns (before: string, after: string)
    ensures s == before + Trim(space, s) + after && AllSpace(space, before) && AllSpace(space, after)
  {
    var start := TrimStart(space, s);
    before := StartCutsSpace(space, s);
    after := start[|TrimEnd(space, start)|..];
    EndCutsSpace(space, start);
  }
}
