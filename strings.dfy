/**
 * Character classes and string operations of the JavaScript runtime that the
 * migration code relies on: `trim`, `includes`, `startsWith`, `replace` of a
 * plain string, `split`/`join` on a separator, and decimal rendering of numbers.
 */
module Strings {
  import opened Wrappers

  /** The characters matched by `\s` and removed by `String.prototype.trim`. */
  predicate IsSpace(c: char) {
    c == ' ' || c == '\t' || c == '\n' || c == '\r' || c == '\U{0B}' || c == '\U{0C}'
    || c == '\U{A0}' || c == '\U{FEFF}' || c == '\U{1680}' || ('\U{2000}' <= c <= '\U{200A}')
    || c == '\U{2028}' || c == '\U{2029}' || c == '\U{202F}' || c == '\U{205F}' || c == '\U{3000}'
  }

  predicate IsDigit(c: char) { '0' <= c <= '9' }

  predicate IsAsciiLetter(c: char) { 'a' <= c <= 'z' || 'A' <= c <= 'Z' }

  /** ASCII case folding, the only folding the case-insensitive patterns of the model need. */
  function Lower(c: char): (r: char)
    ensures IsAsciiLetter(c) <==> IsAsciiLetter(r)
    ensures !IsAsciiLetter(c) ==> r == c
    ensures 'a' <= r <= 'z' || !IsAsciiLetter(r)
  {
    if 'A' <= c <= 'Z' then (c as int + 32) as char else c
  }

  /** `a` and `b` are equal up to ASCII case. */
  predicate EqualsIgnoreCase(a: string, b: string) {
    |a| == |b| && forall i :: 0 <= i < |a| ==> Lower(a[i]) == Lower(b[i])
  }

  /** `s` starts, at index `i`, with `p` up to ASCII case. */
  predicate OccursAtIgnoreCase(s: string, p: string, i: nat) {
    i + |p| <= |s| && EqualsIgnoreCase(s[i..i + |p|], p)
  }

  predicate StartsWith(s: string, p: string) {
    |p| <= |s| && s[..|p|] == p
  }

  predicate OccursAt(s: string, p: string, i: nat) {
    i + |p| <= |s| && s[i..i + |p|] == p
  }

  /** The first occurrence of `p` in `s` at or after `from`, as `indexOf` finds it. */
  function IndexOfFrom(s: string, p: string, from: nat): (r: Option<nat>)
    ensures r.Some? ==> from <= r.value && OccursAt(s, p, r.value)
    ensures r.Some? ==> forall j :: from <= j < r.value ==> !OccursAt(s, p, j)
    ensures r.None? ==> forall j :: from <= j ==> !OccursAt(s, p, j)
    decreases |s| - from
  {
    if |s| < from + |p| then None
    else if OccursAt(s, p, from) then Some(from)
    else IndexOfFrom(s, p, from + 1)
  }

  function IndexOf(s: string, p: string): (r: Option<nat>)
    ensures r.Some? ==> OccursAt(s, p, r.value) && forall j :: 0 <= j < r.value ==> !OccursAt(s, p, j)
    ensures r.None? ==> forall j :: 0 <= j ==> !OccursAt(s, p, j)
  {
    IndexOfFrom(s, p, 0)
  }

  /** `s.includes(p)`. */
  predicate Contains(s: string, p: string) {
    IndexOf(s, p).Some?
  }

  lemma ContainsIff(s: string, p: string)
    ensures Contains(s, p) <==> exists i: nat :: OccursAt(s, p, i)
  {
    if !Contains(s, p) {
      forall i: nat ensures !OccursAt(s, p, i) {}
    }
  }

  /** Text containing `p` in its middle part contains `p`. */
  lemma ContainsInfix(a: string, m: string, b: string, p: string)
    ensures Contains(m, p) ==> Contains(a + m + b, p)
  {
    ContainsConcat(m, b, p);
    ContainsConcat(m + b, a, p);
    assert a + (m + b) == a + m + b;
  }

  /** Text containing `p + q` contains `p`. */
  lemma ContainsPrefix(s: string, p: string, q: string)
    ensures Contains(s, p + q) ==> Contains(s, p)
  {
    if Contains(s, p + q) {
      var i := IndexOf(s, p + q).value;
      assert s[i..i + |p|] == (p + q)[..|p|] == p;
      ContainsIff(s, p);
      assert OccursAt(s, p, i);
    }
  }

  lemma ContainsConcat(a: string, b: string, p: string)
    ensures Contains(a, p) ==> Contains(a + b, p) && Contains(b + a, p)
  {
    if Contains(a, p) {
      var i := IndexOf(a, p).value;
      assert (a + b)[i..i + |p|] == a[i..i + |p|];
      assert OccursAt(a + b, p, i);
      assert (b + a)[|b| + i..|b| + i + |p|] == a[i..i + |p|];
      assert OccursAt(b + a, p, |b| + i);
      ContainsIff(a + b, p);
      ContainsIff(b + a, p);
    }
  }

  /** `s.replace(p, r)` with a plain-string pattern: only the first occurrence is replaced. */
  function ReplaceFirst(s: string, p: string, r: string): (t: string)
    ensures !Contains(s, p) ==> t == s
    ensures Contains(s, p) ==> |t| == |s| - |p| + |r|
  {
    match IndexOf(s, p)
    case None => s
    case Some(i) => s[..i] + r + s[i + |p|..]
  }

  /** Removing a pattern never introduces new characters. */
  lemma ReplaceFirstEmptySubset(s: string, p: string, c: char)
    requires c in ReplaceFirst(s, p, "")
    ensures c in s
  {
    match IndexOf(s, p)
    case None =>
    case Some(i) =>
      var t := s[..i] + s[i + |p|..];
      assert ReplaceFirst(s, p, "") == t;
      var k :| 0 <= k < |t| && t[k] == c;
      if k < i {
        assert t[k] == s[..i][k];
      } else {
        assert t[k] == s[i + |p|..][k - i];
      }
  }

  function TrimStart(s: string): (r: string)
    ensures |r| <= |s|
  {
    if s != [] && IsSpace(s[0]) then TrimStart(s[1..]) else s
  }

  /** `TrimStart` removes exactly the leading whitespace. */
  lemma {:induction false} TrimStartSpec(s: string)
    ensures var r := TrimStart(s);
      && r == s[|s| - |r|..]
      && (r == [] || !IsSpace(r[0]))
      && forall i :: 0 <= i < |s| - |r| ==> IsSpace(s[i])
  {
    if s != [] && IsSpace(s[0]) {
      TrimStartSpec(s[1..]);
    }
  }

  function TrimEnd(s: string): (r: string)
    ensures |r| <= |s|
  {
    if s != [] && IsSpace(s[|s| - 1]) then TrimEnd(s[..|s| - 1]) else s
  }

  /** `TrimEnd` removes exactly the trailing whitespace. */
  lemma {:induction false} TrimEndSpec(s: string)
    ensures var r := TrimEnd(s);
      && r == s[..|r|]
      && (r == [] || !IsSpace(r[|r| - 1]))
      && forall i :: |r| <= i < |s| ==> IsSpace(s[i])
  {
    if s != [] && IsSpace(s[|s| - 1]) {
      TrimEndSpec(s[..|s| - 1]);
    }
  }

  /** `s.trim()`. */
  function Trim(s: string): (r: string)
    ensures |r| <= |s|
  {
    TrimEnd(TrimStart(s))
  }

  /** `s.trim()` is the longest substring of `s` that neither starts nor ends with whitespace; it is empty exactly for blank text. */
  lemma TrimSpec(s: string)
    ensures var r := Trim(s);
      && (r == [] || (!IsSpace(r[0]) && !IsSpace(r[|r| - 1])))
      && Contains(s, r)
      && ((forall i :: 0 <= i < |s| ==> IsSpace(s[i])) <==> r == [])
  {
    var a := TrimStart(s);
    var b := TrimEnd(a);
    TrimStartSpec(s);
    TrimEndSpec(a);
    assert b == s[|s| - |a|..|s| - |a| + |b|];
    assert OccursAt(s, b, |s| - |a|);
    ContainsIff(s, b);
    if b == [] {
      assert a == [];
    } else {
      assert b[0] == s[|s| - |a|];
      assert !IsSpace(b[0]);
      if b[0] == a[0] {}
      assert !IsSpace(b[|b| - 1]);
    }
  }

  /** Replaces every run of whitespace by one space (`s.replace(/\s+/g, ' ')`). */
  function CollapseSpaces(s: string): (r: string)
    ensures |r| <= |s|
    ensures forall i :: 0 <= i < |r| - 1 ==> !(IsSpace(r[i]) && IsSpace(r[i + 1]))
    ensures forall i :: 0 <= i < |r| && IsSpace(r[i]) ==> r[i] == ' '
    ensures r != [] && s != [] ==> (IsSpace(s[0]) <==> IsSpace(r[0]))
    decreases |s|
  {
    if s == [] then []
    else if IsSpace(s[0]) then
      TrimStartSpec(s);
      assert TrimStart(s) == TrimStart(s[1..]);
      [' '] + CollapseSpaces(TrimStart(s))
    else [s[0]] + CollapseSpaces(s[1..])
  }

  /** `c` does not occur in `s`. */
  predicate Free(s: string, c: char) {
    forall i :: 0 <= i < |s| ==> s[i] != c
  }

  /** The index of the first `c` in `s`. */
  function FindChar(s: string, c: char): (r: Option<nat>)
    ensures r.Some? ==> r.value < |s| && s[r.value] == c && Free(s[..r.value], c)
    ensures r.None? ==> Free(s, c)
  {
    if s == [] then None
    else if s[0] == c then Some(0)
    else match FindChar(s[1..], c)
      case None => None
      case Some(i) => assert s[..i + 1] == [s[0]] + s[1..][..i]; Some(i + 1)
  }

  /** `s.split(c)`: the pieces between occurrences of `c`; always at least one piece. */
  function Split(s: string, c: char): (parts: seq<string>)
    ensures |parts| >= 1
    ensures forall k :: 0 <= k < |parts| ==> Free(parts[k], c)
    decreases |s|
  {
    match FindChar(s, c)
    case None => [s]
    case Some(i) => [s[..i]] + Split(s[i + 1..], c)
  }

  /** `parts.join(sep)`. */
  function Join(parts: seq<string>, sep: string): (r: string)
    ensures parts == [] ==> r == []
  {
    if parts == [] then []
    else if |parts| == 1 then parts[0]
    else parts[0] + sep + Join(parts[1..], sep)
  }

  /** Splitting on a character and joining with it again gives back the string. */
  lemma {:induction false} JoinSplit(s: string, c: char)
    ensures Join(Split(s, c), [c]) == s
    decreases |s|
  {
    match FindChar(s, c)
    case None =>
    case Some(i) =>
      var tail := Split(s[i + 1..], c);
      JoinSplit(s[i + 1..], c);
      var parts := [s[..i]] + tail;
      assert parts[0] == s[..i] && parts[1..] == tail;
      assert Join(parts, [c]) == s[..i] + [c] + Join(tail, [c]);
      assert s == s[..i] + [c] + s[i + 1..];
  }

  /** Joining pieces free of `c` with `c` and splitting on `c` gives back the pieces. */
  lemma {:induction false} SplitJoin(parts: seq<string>, c: char)
    requires |parts| >= 1
    requires forall k :: 0 <= k < |parts| ==> Free(parts[k], c)
    ensures Split(Join(parts, [c]), c) == parts
  {
    if |parts| > 1 {
      var rest := Join(parts[1..], [c]);
      FindCharAfter(parts[0], [c] + rest, c);
      var s := parts[0] + [c] + rest;
      assert s == parts[0] + ([c] + rest);
      assert s[..|parts[0]|] == parts[0];
      assert s[|parts[0]| + 1..] == rest;
      SplitJoin(parts[1..], c);
    } else {
      assert Free(parts[0], c);
    }
  }

  lemma FindCharAfter(a: string, b: string, c: char)
    requires Free(a, c) && b != [] && b[0] == c
    ensures FindChar(a + b, c) == Some(|a|)
    decreases |a|
  {
    if a != [] {
      assert (a + b)[1..] == a[1..] + b;
      FindCharAfter(a[1..], b, c);
    }
  }

  /** The part after the last `c` (all of `s` when `c` does not occur). */
  function AfterLast(s: string, c: char): (r: string)
    ensures |r| <= |s|
  {
    if s == [] || s[|s| - 1] == c then [] else AfterLast(s[..|s| - 1], c) + [s[|s| - 1]]
  }

  /** The part after the last `c` is a suffix free of `c`, preceded by `c` unless it is all of `s`. */
  lemma {:induction false} AfterLastSpec(s: string, c: char)
    ensures var r := AfterLast(s, c);
      Free(r, c) && r == s[|s| - |r|..] && (|r| < |s| ==> s[|s| - |r| - 1] == c)
    decreases |s|
  {
    if s != [] && s[|s| - 1] != c {
      var init := s[..|s| - 1];
      AfterLastSpec(init, c);
      var r0 := AfterLast(init, c);
      assert s == init + [s[|s| - 1]];
      assert s[|s| - |r0| - 1..] == init[|init| - |r0|..] + [s[|s| - 1]];
    }
  }

  /** `s.split(c).pop()` is the part after the last `c`. */
  lemma {:induction false} SplitLastIsAfterLast(s: string, c: char)
    ensures var parts := Split(s, c); parts[|parts| - 1] == AfterLast(s, c)
    decreases |s|
  {
    match FindChar(s, c)
    case None =>
      AfterLastFree(s, c);
    case Some(i) =>
      SplitLastIsAfterLast(s[i + 1..], c);
      AfterLastSuffix(s[..i + 1], s[i + 1..], c);
      assert s == s[..i + 1] + s[i + 1..];
  }

  /** Without `c`, everything is after the last `c`. */
  lemma {:induction false} AfterLastFree(s: string, c: char)
    requires Free(s, c)
    ensures AfterLast(s, c) == s
    decreases |s|
  {
    if s != [] {
      AfterLastFree(s[..|s| - 1], c);
      assert s[..|s| - 1] + [s[|s| - 1]] == s;
    }
  }

  lemma {:induction false} AfterLastSuffix(a: string, b: string, c: char)
    requires a != [] && a[|a| - 1] == c
    ensures AfterLast(a + b, c) == AfterLast(b, c)
    decreases |b|
  {
    if b == [] {
      assert a + b == a;
    } else {
      var s := a + b;
      assert s[|s| - 1] == b[|b| - 1];
      assert s[..|s| - 1] == a + b[..|b| - 1];
      if b[|b| - 1] != c {
        AfterLastSuffix(a, b[..|b| - 1], c);
      }
    }
  }

  function DigitChar(d: nat): (c: char)
    requires d < 10
    ensures IsDigit(c)
  {
    ('0' as int + d) as char
  }

  /** Decimal rendering of a natural number, as template literals print it. */
  function NatToString(n: nat): (r: string)
    ensures |r| >= 1
    ensures forall i :: 0 <= i < |r| ==> IsDigit(r[i])
    ensures |r| > 1 ==> r[0] != '0'
  {
    if n < 10 then [DigitChar(n)] else NatToString(n / 10) + [DigitChar(n % 10)]
  }

  /** Decimal rendering of an integer with a leading minus sign when negative. */
  function IntToString(n: int): (r: string)
    ensures |r| >= 1
    ensures n < 0 <==> r[0] == '-'
  {
    if n < 0 then "-" + NatToString(-n) else NatToString(n)
  }

  /** The value of a string of decimal digits. */
  function DigitsValue(s: string): (n: nat)
    requires forall i :: 0 <= i < |s| ==> IsDigit(s[i])
  {
    if s == [] then 0
    else
      assert IsDigit(s[|s| - 1]);
      10 * DigitsValue(s[..|s| - 1]) + (s[|s| - 1] as int - '0' as int)
  }

  /** Reading back a rendered number gives the number: the rendering is injective. */
  lemma {:induction false} NatToStringValue(n: nat)
    ensures DigitsValue(NatToString(n)) == n
  {
    if n >= 10 {
      NatToStringValue(n / 10);
      var r := NatToString(n);
      assert r[..|r| - 1] == NatToString(n / 10);
    }
  }

  lemma NatToStringInjective(m: nat, n: nat)
    requires NatToString(m) == NatToString(n)
    ensures m == n
  {
    NatToStringValue(m);
    NatToStringValue(n);
  }

  predicate AllDigits(s: string) {
    forall i :: 0 <= i < |s| ==> IsDigit(s[i])
  }

  /**
   * `Number(s)` for text that denotes an integer: surrounding whitespace is ignored, blank
   * text is 0, and decimal digits with an optional `+` or `-` sign give their value. Any
   * other text is `NaN`, here `None`.
   */
  function ToNumber(s: string): (r: Option<int>)
    ensures AllDigits(Trim(s)) ==> r == Some(DigitsValue(Trim(s)))
  {
    var t := Trim(s);
    if AllDigits(t) then Some(DigitsValue(t))
    else if |t| >= 2 && t[0] == '-' && AllDigits(t[1..]) then Some(-(DigitsValue(t[1..]) as int))
    else if |t| >= 2 && t[0] == '+' && AllDigits(t[1..]) then Some(DigitsValue(t[1..]))
    else None
  }

  /** Reading back a rendered integer gives the integer. */
  lemma ToNumberOfInt(n: int)
    ensures ToNumber(IntToString(n)) == Some(n)
  {
    var s := IntToString(n);
    assert TrimStart(s) == s;
    assert TrimEnd(s) == s;
    if n < 0 {
      assert s[1..] == NatToString(-n);
      NatToStringValue(-n);
    } else {
      NatToStringValue(n);
    }
  }

  /** Blank text, the empty string included, reads as 0. */
  lemma ToNumberOfBlank(s: string)
    requires forall i :: 0 <= i < |s| ==> IsSpace(s[i])
    ensures ToNumber(s) == Some(0)
  {
    TrimSpec(s);
  }
}
