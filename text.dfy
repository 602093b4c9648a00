/**
 * The string primitives the offer engine relies on, with Python's semantics:
 * character classes, `str.strip`, `str.find`, `str.split`, `str.join`,
 * slicing with a negative bound, `float()` on a decimal literal, and the
 * code-point order Python uses to compare strings.
 */
module Text {
  import opened Wrappers

  // ---------------------------------------------------------------------
  // Character classes
  // ---------------------------------------------------------------------

  /** Python's whitespace: what `str.isspace`, `str.strip` and the regex class `\s` accept. */
  predicate IsSpace(c: char) {
    c == ' ' || '\t' <= c <= '\r' || '\U{1C}' <= c <= '\U{1F}' || c == '\U{85}' || c == '\U{A0}'
    || c == '\U{1680}' || '\U{2000}' <= c <= '\U{200A}' || c == '\U{2028}' || c == '\U{2029}'
    || c == '\U{202F}' || c == '\U{205F}' || c == '\U{3000}'
  }

  predicate IsDigit(c: char) { '0' <= c <= '9' }

  predicate IsUpper(c: char) { 'A' <= c <= 'Z' }

  predicate IsLetter(c: char) { 'A' <= c <= 'Z' || 'a' <= c <= 'z' }

  predicate IsAlnum(c: char) { IsLetter(c) || IsDigit(c) }

  /** The letters of the Cyrillic block (its signs and combining marks excluded). */
  predicate IsCyrillicLetter(c: char) { '\U{400}' <= c <= '\U{481}' || '\U{48A}' <= c <= '\U{4FF}' }

  /** The regex class `\w`, restricted to the Latin and Cyrillic scripts the mail bodies use. */
  predicate IsWordChar(c: char) { IsAlnum(c) || c == '_' || IsCyrillicLetter(c) }

  /** Case folding for `re.IGNORECASE`: ASCII capitals and the Cyrillic capitals U+0400–U+042F map to their small letters; nothing else is folded. */
  function Fold(c: char): (f: char)
    ensures IsLetter(c) ==> 'a' <= f <= 'z'
    ensures !IsLetter(c) && !IsCyrillicLetter(c) ==> f == c
    ensures f < '\U{400}' ==> f == c || IsLetter(c)
  {
    if 'A' <= c <= 'Z' then (c as int + 32) as char
    else if '\U{410}' <= c <= '\U{42F}' then (c as int + 32) as char
    else if '\U{400}' <= c <= '\U{40F}' then (c as int + 80) as char
    else c
  }

  predicate EqIgnoreCase(a: char, b: char) { Fold(a) == Fold(b) }

  /** The literal `lit` occurs at `i` when letters are compared without regard to case. */
  predicate LiteralAt(s: string, i: nat, lit: string) {
    i + |lit| <= |s| && forall k :: 0 <= k < |lit| ==> EqIgnoreCase(s[i + k], lit[k])
  }

  // ---------------------------------------------------------------------
  // Runs, strip
  // ---------------------------------------------------------------------

  /** End of the longest run of `cls` characters starting at `i`. */
  function RunEnd(s: string, i: nat, cls: char -> bool): (j: nat)
    requires i <= |s|
    ensures i <= j <= |s|
    ensures forall k {:trigger cls(s[k])} :: i <= k < j ==> cls(s[k])
    ensures j == |s| || !cls(s[j])
    decreases |s| - i
  {
    if i < |s| && cls(s[i]) then RunEnd(s, i + 1, cls) else i
  }

  /** A run of class characters ending before a character outside the class is the whole run. */
  lemma {:induction false} RunEndAt(s: string, i: nat, j: nat, cls: char -> bool)
    requires i <= j < |s|
    requires forall k :: i <= k < j ==> cls(s[k])
    requires !cls(s[j])
    ensures RunEnd(s, i, cls) == j
    decreases j - i
  {
    if i < j {
      RunEndAt(s, i + 1, j, cls);
    }
  }

  /** Start of the longest run of spaces that ends at `hi`, not going below `lo`. */
  function TrailStart(s: string, lo: nat, hi: nat): (b: nat)
    requires lo <= hi <= |s|
    ensures lo <= b <= hi
    ensures forall k {:trigger IsSpace(s[k])} :: b <= k < hi ==> IsSpace(s[k])
    ensures b == lo || !IsSpace(s[b - 1])
    decreases hi
  {
    if hi > lo && IsSpace(s[hi - 1]) then TrailStart(s, lo, hi - 1) else hi
  }

  /** Python's `s.strip()`. */
  function Strip(s: string): (r: string)
    ensures |r| <= |s|
    ensures r == [] || (!IsSpace(r[0]) && !IsSpace(r[|r| - 1]))
    ensures exists a, b :: 0 <= a <= b <= |s| && r == s[a..b]
                           && forall k :: (0 <= k < a || b <= k < |s|) ==> IsSpace(s[k])
  {
    var a := RunEnd(s, 0, IsSpace);
    var b := TrailStart(s, a, |s|);
    assert a < |s| ==> !IsSpace(s[a]);
    assert a < |s| ==> b > a;
    assert a == |s| ==> b == |s|;
    s[a..b]
  }

  /** The strip is empty exactly for an all-space string, and keeps only characters of the string. */
  lemma StripFacts(s: string)
    ensures Strip(s) == [] <==> forall k :: 0 <= k < |s| ==> IsSpace(s[k])
    ensures forall k :: 0 <= k < |Strip(s)| ==> Strip(s)[k] in s
  {
    var a := RunEnd(s, 0, IsSpace);
    var b := TrailStart(s, a, |s|);
    assert a < |s| ==> !IsSpace(s[a]);
    assert a < |s| ==> b > a;
    assert Strip(s) == s[a..b];
    assert forall k :: 0 <= k < b - a ==> s[a..b][k] == s[a + k];
  }

  /** Stripping adds no character. */
  lemma StripOmits(s: string, c: char)
    requires c !in s
    ensures c !in Strip(s)
  {
    StripFacts(s);
  }

  /** Stripping keeps every character that is not a space. */
  lemma StripKeeps(s: string, c: char)
    requires c in s && !IsSpace(c)
    ensures c in Strip(s)
  {
    var a := RunEnd(s, 0, IsSpace);
    var b := TrailStart(s, a, |s|);
    var i :| 0 <= i < |s| && s[i] == c;
    assert a <= i < b;
    assert Strip(s) == s[a..b];
    assert s[a..b][i - a] == c;
  }

  /** A string with no space at either end is its own strip. */
  lemma StripNoEdges(s: string)
    requires s == [] || (!IsSpace(s[0]) && !IsSpace(s[|s| - 1]))
    ensures Strip(s) == s
  {
    if s != [] {
      assert RunEnd(s, 0, IsSpace) == 0;
      assert TrailStart(s, 0, |s|) == |s|;
    }
  }

  /** Stripping twice is stripping once. */
  lemma StripIdempotent(s: string)
    ensures Strip(Strip(s)) == Strip(s)
  {
    StripNoEdges(Strip(s));
  }

  /** Spaces added at the end of a string are stripped away again. */
  lemma StripTrailingSpaces(s: string, t: string)
    requires forall k :: 0 <= k < |t| ==> IsSpace(t[k])
    ensures Strip(s + t) == Strip(s)
  {
    var u := s + t;
    var a := RunEnd(s, 0, IsSpace);
    if a == |s| {
      assert forall k :: 0 <= k < |u| ==> IsSpace(u[k]) by {
        forall k | 0 <= k < |u| ensures IsSpace(u[k]) {
          if k < |s| { assert u[k] == s[k]; } else { assert u[k] == t[k - |s|]; }
        }
      }
    } else {
      assert RunEnd(u, 0, IsSpace) == a by { RunEndPrefix(s, t, 0, a); }
      var b := TrailStart(s, a, |s|);
      assert TrailStart(u, a, |u|) == b by { TrailStartExtend(s, t, a); }
      assert u[a..b] == s[a..b];
    }
  }

  lemma {:induction false} RunEndPrefix(s: string, t: string, i: nat, a: nat)
    requires i <= a < |s| && a == RunEnd(s, i, IsSpace)
    ensures RunEnd(s + t, i, IsSpace) == a
    decreases a - i
  {
    var u := s + t;
    assert u[i] == s[i];
    if i < a { RunEndPrefix(s, t, i + 1, a); }
  }

  lemma {:induction false} TrailStartExtend(s: string, t: string, a: nat)
    requires a < |s| && !IsSpace(s[a])
    requires forall k :: 0 <= k < |t| ==> IsSpace(t[k])
    ensures TrailStart(s + t, a, |s + t|) == TrailStart(s, a, |s|)
    decreases |t|
  {
    var u := s + t;
    if |t| == 0 {
      assert u == s;
    } else {
      var t' := t[..|t| - 1];
      assert u[|u| - 1] == t[|t| - 1];
      assert u[..|u| - 1] == s + t';
      TrailStartExtend(s, t', a);
      TrailStartDrop(u, a, |u|);
    }
  }

  /** The trailing-space scan past a space at the end equals the scan that starts one place earlier. */
  lemma TrailStartDrop(u: string, a: nat, hi: nat)
    requires a < hi <= |u| && IsSpace(u[hi - 1])
    ensures TrailStart(u, a, hi) == TrailStart(u[..hi - 1], a, hi - 1)
  {
    TrailStartPrefix(u, a, hi - 1);
  }

  lemma {:induction false} TrailStartPrefix(u: string, a: nat, hi: nat)
    requires a <= hi < |u|
    ensures TrailStart(u, a, hi) == TrailStart(u[..hi], a, hi)
    decreases hi
  {
    if hi > a {
      assert u[..hi][hi - 1] == u[hi - 1];
      if IsSpace(u[hi - 1]) {
        TrailStartPrefix(u, a, hi - 1);
        assert u[..hi][..hi - 1] == u[..hi - 1];
        TrailStartPrefix(u[..hi], a, hi - 1);
      }
    }
  }

  // ---------------------------------------------------------------------
  // Search
  // ---------------------------------------------------------------------

  predicate OccursAt(s: string, p: string, i: nat) {
    i + |p| <= |s| && s[i..i + |p|] == p
  }

  /** Python's `s.find(p, from)`: the first occurrence at or after `from`, or -1. */
  function Find(s: string, p: string, from: nat): (r: int)
    ensures r == -1 || (from <= r && OccursAt(s, p, r))
    decreases |s| - from
  {
    if from + |p| > |s| then -1
    else if OccursAt(s, p, from) then from
    else Find(s, p, from + 1)
  }

  /** `find` gives the first occurrence: none before it, and -1 only when there is none. */
  lemma {:induction false} FindFirst(s: string, p: string, from: nat)
    ensures Find(s, p, from) == -1 ==> forall i :: from <= i ==> !OccursAt(s, p, i)
    ensures Find(s, p, from) >= 0 ==> forall i :: from <= i < Find(s, p, from) ==> !OccursAt(s, p, i)
    decreases |s| - from
  {
    if from + |p| <= |s| && !OccursAt(s, p, from) {
      FindFirst(s, p, from + 1);
    }
  }

  /** Python's `p in s`. */
  predicate Contains(s: string, p: string) {
    Find(s, p, 0) >= 0
  }

  lemma ContainsAt(s: string, p: string, i: nat)
    requires OccursAt(s, p, i)
    ensures Contains(s, p)
  {
    FindFirst(s, p, 0);
  }

  /** The first index of `c` in `s`, or -1. */
  function IndexOf(s: string, c: char): (r: int)
    ensures -1 <= r < |s|
    ensures r == -1 <==> c !in s
    ensures r >= 0 ==> r < |s| && s[r] == c && c !in s[..r]
  {
    if |s| == 0 then -1
    else if s[0] == c then 0
    else
      var r := IndexOf(s[1..], c);
      assert s == [s[0]] + s[1..];
      if r < 0 then -1 else r + 1
  }

  predicate StartsWith(s: string, p: string) {
    |p| <= |s| && s[..|p|] == p
  }

  // ---------------------------------------------------------------------
  // Split, join, replace
  // ---------------------------------------------------------------------

  /** Python's `s.split(sep)` for a one-character separator: never empty, pieces free of `sep`. */
  function Split(s: string, sep: char): (parts: seq<string>)
    ensures |parts| >= 1
    ensures forall k :: 0 <= k < |parts| ==> sep !in parts[k]
    decreases |s|
  {
    var i := IndexOf(s, sep);
    if i < 0 then [s] else [s[..i]] + Split(s[i + 1..], sep)
  }

  /** Python's `sep.join(parts)`. */
  function Join(parts: seq<string>, sep: char): string
    decreases |parts|
  {
    if |parts| == 0 then []
    else if |parts| == 1 then parts[0]
    else parts[0] + [sep] + Join(parts[1..], sep)
  }

  /** Splitting and joining again gives back the original string. */
  lemma {:induction false} JoinSplit(s: string, sep: char)
    ensures Join(Split(s, sep), sep) == s
    decreases |s|
  {
    hide IndexOf;
    var i := IndexOf(s, sep);
    if i >= 0 {
      var rest := s[i + 1..];
      JoinSplit(rest, sep);
      var parts := Split(s, sep);
      var tail := Split(rest, sep);
      assert parts == [s[..i]] + tail;
      assert |parts| > 1 && parts[0] == s[..i] && parts[1..] == tail;
      assert Join(parts, sep) == s[..i] + [sep] + Join(tail, sep);
      assert s == s[..i] + [sep] + rest;
    }
  }

  /** Splitting at the first separator. */
  lemma SplitFirst(s: string, sep: char)
    ensures IndexOf(s, sep) < 0 ==> Split(s, sep) == [s]
    ensures IndexOf(s, sep) >= 0 ==>
      Split(s, sep) == [s[..IndexOf(s, sep)]] + Split(s[IndexOf(s, sep) + 1..], sep)
  {
  }

  /** Joining a first piece to the rest. */
  lemma JoinFirst(parts: seq<string>, sep: char)
    requires |parts| >= 1
    ensures |parts| == 1 ==> Join(parts, sep) == parts[0]
    ensures |parts| > 1 ==> Join(parts, sep) == parts[0] + [sep] + Join(parts[1..], sep)
  {
  }

  /** Joining pieces free of the separator and splitting again gives back the pieces. */
  lemma {:induction false} SplitJoin(parts: seq<string>, sep: char)
    requires |parts| >= 1
    requires forall k :: 0 <= k < |parts| ==> sep !in parts[k]
    ensures Split(Join(parts, sep), sep) == parts
    decreases |parts|
  {
    hide IndexOf, Split, Join;
    var s := Join(parts, sep);
    JoinFirst(parts, sep);
    SplitFirst(s, sep);
    if |parts| > 1 {
      var head := parts[0];
      var tail := Join(parts[1..], sep);
      assert s == head + [sep] + tail;
      assert s[..|head|] == head;
      assert s[|head| + 1..] == tail;
      assert IndexOf(s, sep) == |head| by {
        assert s[|head|] == sep;
        assert sep in s;
      }
      SplitJoin(parts[1..], sep);
      assert parts == [head] + parts[1..];
    } else {
      assert IndexOf(s, sep) < 0;
    }
  }

  /** A character other than the separator is in the joined string exactly when it is in one of the pieces. */
  lemma {:induction false} JoinChars(parts: seq<string>, sep: char, c: char)
    requires c != sep
    ensures c in Join(parts, sep) <==> exists k :: 0 <= k < |parts| && c in parts[k]
    decreases |parts|
  {
    if |parts| > 1 {
      JoinChars(parts[1..], sep, c);
      assert Join(parts, sep) == parts[0] + [sep] + Join(parts[1..], sep);
      if c in Join(parts, sep) && c !in parts[0] {
        var k :| 0 <= k < |parts| - 1 && c in parts[1..][k];
        assert c in parts[k + 1];
      }
      if exists k :: 0 <= k < |parts| && c in parts[k] {
        var k :| 0 <= k < |parts| && c in parts[k];
        if k > 0 { assert parts[1..][k - 1] == parts[k]; }
      }
    }
  }

  /** Python's `s.replace(a, b)` for single characters. */
  function ReplaceChar(s: string, a: char, b: char): (r: string)
    ensures |r| == |s|
    ensures forall k :: 0 <= k < |s| ==> r[k] == (if s[k] == a then b else s[k])
  {
    seq(|s|, k requires 0 <= k < |s| => if s[k] == a then b else s[k])
  }

  /** Python's `s.replace(c, '')`: the other characters, in order. */
  function RemoveChar(s: string, c: char): (r: string)
    ensures c !in r
    ensures |r| <= |s|
    ensures c !in s ==> r == s
  {
    if |s| == 0 then []
    else
      var rest := RemoveChar(s[1..], c);
      assert s == [s[0]] + s[1..];
      if s[0] == c then rest else [s[0]] + rest
  }

  /** On one character: it goes when it is `c` and stays otherwise. */
  lemma RemoveCharSingle(x: char, c: char)
    ensures RemoveChar([x], c) == if x == c then [] else [x]
  {
    assert [x][1..] == [];
  }

  /** A string made only of `c` is removed whole. */
  lemma {:induction false} RemoveCharAll(s: string, c: char)
    requires forall k :: 0 <= k < |s| ==> s[k] == c
    ensures RemoveChar(s, c) == []
    decreases |s|
  {
    if |s| > 0 {
      RemoveCharAll(s[1..], c);
    }
  }

  lemma RemoveCharAppend(a: string, b: string, c: char)
    ensures RemoveChar(a + b, c) == RemoveChar(a, c) + RemoveChar(b, c)
  {
    if |a| > 0 {
      assert (a + b)[1..] == a[1..] + b;
      RemoveCharAppend(a[1..], b, c);
    } else {
      assert a + b == b;
    }
  }

  // ---------------------------------------------------------------------
  // Slicing
  // ---------------------------------------------------------------------

  function ClampIndex(i: int, n: nat): (r: nat)
    ensures r <= n
  {
    if i < 0 then (if i + n < 0 then 0 else i + n) else if i > n then n else i
  }

  /** Python's `s[lo:hi]`, where a negative bound counts from the end. */
  function PySlice(s: string, lo: int, hi: int): (r: string)
    ensures 0 <= lo <= hi <= |s| ==> r == s[lo..hi]
    ensures 0 <= lo < |s| && hi == -1 ==> r == s[lo..|s| - 1]
    ensures |r| <= |s|
  {
    var a := ClampIndex(lo, |s|);
    var b := ClampIndex(hi, |s|);
    if a < b then s[a..b] else []
  }

  // ---------------------------------------------------------------------
  // Decimal literals: what float() accepts here
  // ---------------------------------------------------------------------

  predicate AllDigits(t: string) {
    forall k :: 0 <= k < |t| ==> IsDigit(t[k])
  }

  /** Digits with at most one dot and at least one digit. */
  predicate IsDecimal(t: string) {
    var d := IndexOf(t, '.');
    if d < 0 then |t| > 0 && AllDigits(t)
    else AllDigits(t[..d]) && AllDigits(t[d + 1..]) && |t| > 1
  }

  function DigitValue(c: char): nat
    requires IsDigit(c)
  {
    c as int - '0' as int
  }

  function DigitsValue(t: string): (n: nat)
    requires AllDigits(t)
    decreases |t|
  {
    if |t| == 0 then 0 else DigitsValue(t[..|t| - 1]) * 10 + DigitValue(t[|t| - 1])
  }

  /** The value of the digits after a decimal point: 0.d1d2d3... */
  function FractionValue(t: string): (v: real)
    requires AllDigits(t)
    ensures 0.0 <= v < 1.0
    decreases |t|
  {
    if |t| == 0 then 0.0 else (DigitValue(t[0]) as real + FractionValue(t[1..])) / 10.0
  }

  function DecimalValue(t: string): (v: real)
    requires IsDecimal(t)
    ensures v >= 0.0
  {
    var d := IndexOf(t, '.');
    if d < 0 then DigitsValue(t) as real
    else DigitsValue(t[..d]) as real + FractionValue(t[d + 1..])
  }

  /** Python's `float(t)` on text made of ASCII digits, dots and whitespace: None stands for ValueError. Other Unicode decimal digits, which `float()` also accepts, are not modelled. */
  function ParseFloat(t: string): (r: Option<real>)
    ensures r.Some? <==> IsDecimal(Strip(t))
    ensures r.Some? ==> r.value >= 0.0
  {
    var u := Strip(t);
    if IsDecimal(u) then Some(DecimalValue(u)) else None
  }

  // ---------------------------------------------------------------------
  // Python's string order
  // ---------------------------------------------------------------------

  /** `a <= b` on Python strings: code point by code point, a proper prefix first. */
  predicate LexLe(a: string, b: string)
    decreases |a|
  {
    |a| == 0 || (|b| > 0 && (a[0] < b[0] || (a[0] == b[0] && LexLe(a[1..], b[1..]))))
  }

  lemma {:induction false} LexLeReflexive(a: string)
    ensures LexLe(a, a)
    decreases |a|
  {
    if |a| > 0 { LexLeReflexive(a[1..]); }
  }

  lemma {:induction false} LexLeTotal(a: string, b: string)
    ensures LexLe(a, b) || LexLe(b, a)
    decreases |a|
  {
    if |a| > 0 && |b| > 0 && a[0] == b[0] { LexLeTotal(a[1..], b[1..]); }
  }

  lemma {:induction false} LexLeAntisymmetric(a: string, b: string)
    requires LexLe(a, b) && LexLe(b, a)
    ensures a == b
    decreases |a|
  {
    if |a| > 0 {
      LexLeAntisymmetric(a[1..], b[1..]);
      assert a == [a[0]] + a[1..] && b == [b[0]] + b[1..];
    }
  }

  lemma {:induction false} LexLeTransitive(a: string, b: string, c: string)
    requires LexLe(a, b) && LexLe(b, c)
    ensures LexLe(a, c)
    decreases |a|
  {
    if |a| > 0 && a[0] == b[0] && b[0] == c[0] { LexLeTransitive(a[1..], b[1..], c[1..]); }
  }
}
