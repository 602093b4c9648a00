/**
 * Hand-written matchers for the regular expressions the offer parser uses.
 *
 * Each `...At(s, i)` function is the pattern anchored at position `i`, with the
 * choice Python's backtracking engine makes among the ways it can match there
 * (greedy quantifiers longest first, lazy ones shortest first). `Search` is
 * `re.search`: the leftmost position at which the anchored pattern matches.
 */
module Patterns {
  import opened Wrappers
  import opened Text

  // ---------------------------------------------------------------------
  // re.search
  // ---------------------------------------------------------------------

  /** The leftmost position at or after `i` where `m` matches, with what it captured. */
  function Search<T>(s: string, i: nat, m: (string, nat) -> Option<T>): (r: Option<(nat, T)>)
    ensures r.Some? ==> i <= r.value.0 <= |s| && m(s, r.value.0) == Some(r.value.1)
    decreases |s| + 1 - i
  {
    if i > |s| then None
    else match m(s, i)
      case Some(t) => Some((i, t))
      case None => Search(s, i + 1, m)
  }

  /** No position before the one `Search` reports matches; with no report, none matches at all. */
  lemma {:induction false} SearchLeftmost<T>(s: string, i: nat, m: (string, nat) -> Option<T>)
    ensures Search(s, i, m).Some? ==> forall j :: i <= j < Search(s, i, m).value.0 ==> m(s, j).None?
    ensures Search(s, i, m).None? ==> forall j :: i <= j <= |s| ==> m(s, j).None?
    decreases |s| + 1 - i
  {
    if i <= |s| && m(s, i).None? {
      SearchLeftmost(s, i + 1, m);
    }
  }

  /** The pattern matches somewhere in `s`. */
  predicate MatchesSomewhere<T>(s: string, m: (string, nat) -> Option<T>) {
    exists j :: 0 <= j <= |s| && m(s, j).Some?
  }

  /** `t` is what the pattern captures at the leftmost position where it matches. */
  predicate LeftmostCapture<T(==)>(s: string, m: (string, nat) -> Option<T>, t: T) {
    exists j :: 0 <= j <= |s| && m(s, j) == Some(t) && forall j' :: 0 <= j' < j ==> m(s, j').None?
  }

  /** What `re.search` captured, if anything matched. */
  function Captured<T>(s: string, m: (string, nat) -> Option<T>): Option<T>
  {
    match Search(s, 0, m)
    case Some((_, t)) => Some(t)
    case None => None
  }

  /** `Captured` is `re.search`: nothing when no position matches, else the leftmost match's capture. */
  lemma CapturedMeans<T>(s: string, m: (string, nat) -> Option<T>)
    ensures Captured(s, m).None? <==> !MatchesSomewhere(s, m)
    ensures Captured(s, m).Some? ==> LeftmostCapture(s, m, Captured(s, m).value)
  {
    SearchLeftmost(s, 0, m);
  }

  /** There is one leftmost capture. */
  lemma LeftmostUnique<T>(s: string, m: (string, nat) -> Option<T>, t: T, u: T)
    requires LeftmostCapture(s, m, t) && LeftmostCapture(s, m, u)
    ensures t == u
  {
    var j :| 0 <= j <= |s| && m(s, j) == Some(t) && forall j' :: 0 <= j' < j ==> m(s, j').None?;
    var i :| 0 <= i <= |s| && m(s, i) == Some(u) && forall j' :: 0 <= j' < i ==> m(s, j').None?;
    assert !(i < j) && !(j < i);
  }

  /** So the capture is the leftmost capture, whichever way that is found. */
  lemma CapturedIs<T>(s: string, m: (string, nat) -> Option<T>, t: T)
    requires LeftmostCapture(s, m, t)
    ensures Captured(s, m) == Some(t)
  {
    CapturedMeans(s, m);
    LeftmostUnique(s, m, Captured(s, m).value, t);
  }

  /** What holds of every match holds of the capture. */
  lemma CapturedHas<T>(s: string, m: (string, nat) -> Option<T>, p: T -> bool)
    requires forall j :: 0 <= j <= |s| && m(s, j).Some? ==> p(m(s, j).value)
    ensures Captured(s, m).Some? ==> p(Captured(s, m).value)
  {
    CapturedMeans(s, m);
    if Captured(s, m).Some? {
      var t := Captured(s, m).value;
      var j :| 0 <= j <= |s| && m(s, j) == Some(t) && forall j' :: 0 <= j' < j ==> m(s, j').None?;
    }
  }

  // ---------------------------------------------------------------------
  // Character classes of the patterns
  // ---------------------------------------------------------------------

  predicate IsNonWord(c: char) { !IsWordChar(c) }

  /** `[A-Za-z0-9\-_]` */
  predicate IsIdChar(c: char) { IsAlnum(c) || c == '-' || c == '_' }

  /** `[A-Za-z0-9\-_\s/]` */
  predicate IsOrderChar(c: char) { IsAlnum(c) || c == '-' || c == '_' || IsSpace(c) || c == '/' }

  /** `[\d,.]` */
  predicate IsRateChar(c: char) { IsDigit(c) || c == ',' || c == '.' }

  /** `[\d\s.,]` */
  predicate IsAmountChar(c: char) { IsDigit(c) || IsSpace(c) || c == '.' || c == ',' }

  // ---------------------------------------------------------------------
  // `[^\w]*` followed by a capture
  // ---------------------------------------------------------------------

  /** `[^\w]*` can end at `p` and a character of `cls` follows it there. */
  predicate ValidStart(s: string, a: nat, p: nat, cls: char -> bool) {
    a <= p < |s| && (forall k :: a <= k < p ==> IsNonWord(s[k])) && cls(s[p])
  }

  function LastClassAt(s: string, a: nat, p: nat, cls: char -> bool): (r: Option<nat>)
    requires a <= p <= |s|
    ensures r.Some? ==> a <= r.value <= p && r.value < |s| && cls(s[r.value])
    ensures forall q :: a <= q <= p && q < |s| && cls(s[q]) ==> r.Some? && q <= r.value
    decreases p
  {
    if p < |s| && cls(s[p]) then Some(p)
    else if p == a then None
    else LastClassAt(s, a, p - 1, cls)
  }

  /**
   * Where the capture after `[^\w]*` starts. The greedy `[^\w]*` first takes
   * the whole run of non-word characters and then gives characters back, so the
   * capture starts at the LARGEST position the rest of the pattern accepts.
   */
  function ClassStart(s: string, a: nat, cls: char -> bool): (r: Option<nat>)
    requires a <= |s|
    ensures r.Some? ==> ValidStart(s, a, r.value, cls)
    ensures forall p: nat :: ValidStart(s, a, p, cls) ==> r.Some? && p <= r.value
  {
    var e := RunEnd(s, a, IsNonWord);
    var r := LastClassAt(s, a, e, cls);
    assert e < |s| ==> !IsNonWord(s[e]);
    assert forall p: nat :: ValidStart(s, a, p, cls) ==> p <= e;
    r
  }

  /** A greedy `(cls+)` at the start `ClassStart` chooses. */
  function GreedyCapture(s: string, a: nat, cls: char -> bool): (r: Option<string>)
    requires a <= |s|
    ensures r.Some? ==> |r.value| >= 1 && forall k :: 0 <= k < |r.value| ==> cls(r.value[k])
    ensures r.None? <==> forall p: nat :: !ValidStart(s, a, p, cls)
  {
    match ClassStart(s, a, cls)
    case Some(p) => Some(s[p..RunEnd(s, p, cls)])
    case None => None
  }

  /** Two literal words with `\s*` between them, ignoring case; the position after them. */
  function Heading(s: string, i: nat, first: string, second: string): (r: Option<nat>)
    ensures r.Some? ==> r.value <= |s|
  {
    if !LiteralAt(s, i, first) then None
    else
      var j := RunEnd(s, i + |first|, IsSpace);
      if LiteralAt(s, j, second) then Some(j + |second|) else None
  }

  // ---------------------------------------------------------------------
  // The request-id patterns (re.IGNORECASE)
  // ---------------------------------------------------------------------

  /** `ID\s*заявки[^\w]*([A-Za-z0-9\-_]+)` */
  function LabelledIdAt(s: string, i: nat): (r: Option<string>)
    ensures r.Some? ==> |r.value| >= 1 && forall k :: 0 <= k < |r.value| ==> IsIdChar(r.value[k])
  {
    match Heading(s, i, "ID", "заявки")
    case Some(a) => GreedyCapture(s, a, IsIdChar)
    case None => None
  }

  /**
   * `Заявка\s*№?[^\w]*([A-Za-z0-9\-_]+)`. Spaces and the sign № are themselves
   * non-word characters, so `\s*№?[^\w]*` accepts exactly what `[^\w]*` does.
   */
  function RequestWordIdAt(s: string, i: nat): (r: Option<string>)
    ensures r.Some? ==> |r.value| >= 1 && forall k :: 0 <= k < |r.value| ==> IsIdChar(r.value[k])
  {
    if LiteralAt(s, i, "Заявка") then GreedyCapture(s, i + 6, IsIdChar) else None
  }

  predicate DigitsAt(s: string, i: nat, n: nat) {
    i + n <= |s| && forall k :: i <= k < i + n ==> IsDigit(s[k])
  }

  /** `(SHIP-\d{8}-\d{4})` */
  function ShipIdAt(s: string, i: nat): (r: Option<string>)
    ensures r.Some? ==> |r.value| == 18 && forall k :: 0 <= k < 18 ==> IsIdChar(r.value[k])
  {
    if LiteralAt(s, i, "SHIP-") && DigitsAt(s, i + 5, 8) && i + 13 < |s| && s[i + 13] == '-'
       && DigitsAt(s, i + 14, 4)
    then
      LiteralIdChars(s, i, "SHIP-");
      Some(s[i..i + 18])
    else None
  }

  /** Text matching an ASCII literal of id characters, whatever its case, is made of id characters. */
  lemma LiteralIdChars(s: string, i: nat, lit: string)
    requires LiteralAt(s, i, lit)
    requires forall k :: 0 <= k < |lit| ==> IsIdChar(lit[k]) && lit[k] < '\U{400}'
    ensures forall k :: i <= k < i + |lit| ==> IsIdChar(s[k])
  {
    forall k | i <= k < i + |lit| ensures IsIdChar(s[k]) {
      assert EqIgnoreCase(s[i + (k - i)], lit[k - i]);
    }
  }

  // ---------------------------------------------------------------------
  // The order-number patterns (re.IGNORECASE)
  // ---------------------------------------------------------------------

  /** `Номер\s*заказа[^\w]*([A-Z0-9]{2}\d{2}[-_]\d{3,})` */
  function StrictOrderAt(s: string, i: nat): (r: Option<string>)
    ensures r.Some? ==> |r.value| >= 8 && forall k :: 0 <= k < |r.value| ==> IsIdChar(r.value[k])
  {
    match Heading(s, i, "Номер", "заказа")
    case None => None
    case Some(a) =>
      match ClassStart(s, a, IsAlnum)
      case None => None
      case Some(p) =>
        if p + 5 <= |s| && IsAlnum(s[p + 1]) && IsDigit(s[p + 2]) && IsDigit(s[p + 3])
           && (s[p + 4] == '-' || s[p + 4] == '_')
        then
          var c := RunEnd(s, p + 5, IsDigit);
          if c >= p + 8 then Some(s[p..c]) else None
        else None
  }

  /**
   * `<heading>[^\w]*([A-Za-z0-9\-_\s/]+?)(?:\r?|$)`: the lazy `+?` takes one
   * character, after which `\r?` matches the empty string, so the capture is
   * always exactly one character.
   */
  function OneCharAfter(s: string, h: Option<nat>): (r: Option<string>)
    requires h.Some? ==> h.value <= |s|
    ensures r.Some? ==> |r.value| == 1 && IsOrderChar(r.value[0])
  {
    match h
    case None => None
    case Some(a) =>
      match ClassStart(s, a, IsOrderChar)
      case Some(p) => Some(s[p..p + 1])
      case None => None
  }

  /** `Номер\s*заказа[^\w]*([A-Za-z0-9\-_\s/]+?)(?:\r?|$)` */
  function LazyOrderAt(s: string, i: nat): (r: Option<string>)
    ensures r.Some? ==> |r.value| == 1 && IsOrderChar(r.value[0])
  {
    OneCharAfter(s, Heading(s, i, "Номер", "заказа"))
  }

  /** `Order\s*Number[^\w]*([A-Za-z0-9\-_\s/]+?)(?:\r?|$)` */
  function EnglishOrderAt(s: string, i: nat): (r: Option<string>)
    ensures r.Some? ==> |r.value| == 1 && IsOrderChar(r.value[0])
  {
    OneCharAfter(s, Heading(s, i, "Order", "Number"))
  }

  /** `([A-Z]{2,}\d+[-_]\d{2,})`: letters, digits, a dash or underscore, digits. */
  function OrderCodeAt(s: string, i: nat): (r: Option<string>)
    ensures r.Some? ==> |r.value| >= 6 && IsLetter(r.value[0]) && IsDigit(r.value[|r.value| - 1])
    ensures r.Some? ==> forall k :: 0 <= k < |r.value| ==> IsIdChar(r.value[k])
  {
    if i > |s| then None
    else
      var a := RunEnd(s, i, IsLetter);
      var b := RunEnd(s, a, IsDigit);
      if a >= i + 2 && b > a && b < |s| && (s[b] == '-' || s[b] == '_') then
        var c := RunEnd(s, b + 1, IsDigit);
        if c >= b + 3 then Some(s[i..c]) else None
      else None
  }

  // ---------------------------------------------------------------------
  // Rate, conditions
  // ---------------------------------------------------------------------

  /** `Ставка:\s*([\d,.]+)\s*([A-Z]{3})` (re.IGNORECASE): the amount and the currency. */
  function RateAt(s: string, i: nat): (r: Option<(string, string)>)
    ensures r.Some? ==> |r.value.0| >= 1 && |r.value.1| == 3
    ensures r.Some? ==> forall k :: 0 <= k < |r.value.0| ==> IsRateChar(r.value.0[k])
    ensures r.Some? ==> forall k :: 0 <= k < 3 ==> IsLetter(r.value.1[k])
  {
    if !LiteralAt(s, i, "Ставка:") then None
    else
      var a := RunEnd(s, i + 7, IsSpace);
      var b := RunEnd(s, a, IsRateChar);
      var c := RunEnd(s, b, IsSpace);
      if b > a && c + 3 <= |s| && IsLetter(s[c]) && IsLetter(s[c + 1]) && IsLetter(s[c + 2])
      then Some((s[a..b], s[c..c + 3]))
      else None
  }

  /**
   * `Условия:\s*(.*?)(?:\r?\r?|\r??$)` (re.DOTALL | re.IGNORECASE): the lazy
   * group stays empty because `\r?\r?` matches the empty string.
   */
  function ConditionsAt(s: string, i: nat): (r: Option<string>)
    ensures r.Some? ==> r.value == []
  {
    if LiteralAt(s, i, "Условия:") then Some([]) else None
  }

  // ---------------------------------------------------------------------
  // The cost-line pattern (case-sensitive)
  // ---------------------------------------------------------------------

  /** `([\d\s.,]+)\s+([A-Z]{3})` anchored at `i`: the amount text and the currency. */
  function AmountAt(s: string, i: nat): (r: Option<(string, string)>)
  {
    if i > |s| then None
    else
      var j := RunEnd(s, i, IsAmountChar);
      if j >= i + 2 && IsSpace(s[j - 1]) && j + 3 <= |s| && IsUpper(s[j]) && IsUpper(s[j + 1]) && IsUpper(s[j + 2])
      then Some((s[i..j - 1], s[j..j + 3]))
      else None
  }

  /** The regex matches at `i` with group 1 = s[i..k], `\s+` = s[k..m] and group 2 = s[m..m+3]. */
  predicate AmountMatch(s: string, i: nat, k: nat, m: nat) {
    i < k < m && m + 3 <= |s|
    && (forall t :: i <= t < k ==> IsAmountChar(s[t]))
    && (forall t :: k <= t < m ==> IsSpace(s[t]))
    && IsUpper(s[m]) && IsUpper(s[m + 1]) && IsUpper(s[m + 2])
  }

  /**
   * `AmountAt` is the regex: it matches exactly when some split of the text
   * does, and it picks the split a greedy group 1 picks, the longest one.
   */
  lemma AmountAtIsGreedyMatch(s: string, i: nat)
    ensures AmountAt(s, i).Some? <==> exists k: nat, m: nat :: AmountMatch(s, i, k, m)
    ensures forall k: nat, m: nat :: AmountMatch(s, i, k, m) ==>
      k <= |s| && m + 3 <= |s| && AmountAt(s, i).Some? && AmountAt(s, i).value.1 == s[m..m + 3]
      && k + 1 <= m && |AmountAt(s, i).value.0| >= k - i
    ensures AmountAt(s, i).Some? ==>
      AmountMatch(s, i, i + |AmountAt(s, i).value.0|, i + |AmountAt(s, i).value.0| + 1)
  {
    if i <= |s| {
      var j := RunEnd(s, i, IsAmountChar);
      forall k: nat, m: nat | AmountMatch(s, i, k, m)
        ensures m == j && k <= j - 1 && IsSpace(s[j - 1])
      {
        assert forall t :: i <= t < m ==> IsAmountChar(s[t]);
        assert !IsAmountChar(s[m]);
      }
      if AmountAt(s, i).Some? {
        assert AmountMatch(s, i, j - 1, j);
      }
    }
  }
}
