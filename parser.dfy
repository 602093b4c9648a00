/**
 * Reading carrier offers out of unread mail: the request id, the order
 * number, the rate, the cost section and its cost lines, and the pass over a
 * mail folder that turns each accepted message into a new offer.
 */
module Parser {
  import opened Wrappers
  import opened Text
  import opened Patterns
  import opened Offers
  import opened Folds

  const CostHeading := "Расчет стоимости"
  const PaymentHeading := "Условия оплаты"
  const NotesHeading := "Примечания"

  /** The placeholder order number of an offer in which none was found. */
  const NoOrderNumber := "—"

  // ---------------------------------------------------------------------
  // Header fields
  // ---------------------------------------------------------------------

  /**
   * The request id: the capture of the first of the three id patterns that
   * matches anywhere in the body, taken at its leftmost match; "" if none does.
   */
  function RequestId(body: string): (r: string)
    ensures forall k :: 0 <= k < |r| ==> IsIdChar(r[k])
  {
    IdCapture(body, LabelledIdAt);
    IdCapture(body, RequestWordIdAt);
    IdCapture(body, ShipIdAt);
    match Captured(body, LabelledIdAt)
    case Some(t) => t
    case None =>
      match Captured(body, RequestWordIdAt)
      case Some(t) => t
      case None => Captured(body, ShipIdAt).GetOr([])
  }

  /** A capture of a pattern whose every match is made of id characters is made of them too. */
  lemma IdCapture(body: string, m: (string, nat) -> Option<string>)
    requires forall j :: 0 <= j <= |body| && m(body, j).Some? ==>
      forall k :: 0 <= k < |m(body, j).value| ==> IsIdChar(m(body, j).value[k])
    ensures Captured(body, m).Some? ==> forall k :: 0 <= k < |Captured(body, m).value| ==> IsIdChar(Captured(body, m).value[k])
  {
    CapturedHas(body, m, (t: string) => forall k :: 0 <= k < |t| ==> IsIdChar(t[k]));
  }

  lemma RequestIdMeans(body: string)
    ensures MatchesSomewhere(body, LabelledIdAt) ==> LeftmostCapture(body, LabelledIdAt, RequestId(body))
    ensures !MatchesSomewhere(body, LabelledIdAt) && MatchesSomewhere(body, RequestWordIdAt) ==>
      LeftmostCapture(body, RequestWordIdAt, RequestId(body))
    ensures (!MatchesSomewhere(body, LabelledIdAt) && !MatchesSomewhere(body, RequestWordIdAt)
             && MatchesSomewhere(body, ShipIdAt)) ==> LeftmostCapture(body, ShipIdAt, RequestId(body))
    ensures RequestId(body) == [] <==>
      !MatchesSomewhere(body, LabelledIdAt) && !MatchesSomewhere(body, RequestWordIdAt)
      && !MatchesSomewhere(body, ShipIdAt)
  {
    CapturedMeans(body, LabelledIdAt);
    CapturedMeans(body, RequestWordIdAt);
    CapturedMeans(body, ShipIdAt);
    CapturedHas(body, LabelledIdAt, (t: string) => |t| >= 1);
    CapturedHas(body, RequestWordIdAt, (t: string) => |t| >= 1);
    CapturedHas(body, ShipIdAt, (t: string) => |t| >= 1);
  }

  /**
   * The order number the three labelled patterns give, stripped: the first
   * pattern that matches anywhere wins; the placeholder if none matches.
   */
  function LabelledOrderNumber(body: string): (r: string)
    ensures r == NoOrderNumber || OrderText(r)
  {
    OrderCapture(body, StrictOrderAt);
    OrderCapture(body, LazyOrderAt);
    OrderCapture(body, EnglishOrderAt);
    match Captured(body, StrictOrderAt)
    case Some(t) => Strip(t)
    case None =>
      match Captured(body, LazyOrderAt)
      case Some(t) => Strip(t)
      case None =>
        match Captured(body, EnglishOrderAt)
        case Some(t) => Strip(t)
        case None => NoOrderNumber
  }

  lemma LabelledOrderNumberMeans(body: string)
    ensures MatchesSomewhere(body, StrictOrderAt) ==>
      exists t :: LeftmostCapture(body, StrictOrderAt, t) && LabelledOrderNumber(body) == Strip(t)
    ensures !MatchesSomewhere(body, StrictOrderAt) && MatchesSomewhere(body, LazyOrderAt) ==>
      exists t :: LeftmostCapture(body, LazyOrderAt, t) && LabelledOrderNumber(body) == Strip(t)
    ensures (!MatchesSomewhere(body, StrictOrderAt) && !MatchesSomewhere(body, LazyOrderAt)
             && MatchesSomewhere(body, EnglishOrderAt)) ==>
      exists t :: LeftmostCapture(body, EnglishOrderAt, t) && LabelledOrderNumber(body) == Strip(t)
    ensures LabelledOrderNumber(body) == NoOrderNumber <==>
      !MatchesSomewhere(body, StrictOrderAt) && !MatchesSomewhere(body, LazyOrderAt)
      && !MatchesSomewhere(body, EnglishOrderAt)
    ensures LabelledOrderNumber(body) != NoOrderNumber && !MatchesSomewhere(body, StrictOrderAt) ==>
      |LabelledOrderNumber(body)| <= 1
  {
    CapturedMeans(body, StrictOrderAt);
    CapturedMeans(body, LazyOrderAt);
    CapturedMeans(body, EnglishOrderAt);
    match Captured(body, StrictOrderAt)
    case Some(t) =>
      var j :| 0 <= j <= |body| && StrictOrderAt(body, j) == Some(t) && forall j' :: 0 <= j' < j ==> StrictOrderAt(body, j').None?;
      NotPlaceholder(t);
    case None =>
      match Captured(body, LazyOrderAt)
      case Some(t) =>
        OneCharNotPlaceholder(body, LazyOrderAt, t);
      case None =>
        match Captured(body, EnglishOrderAt)
        case Some(t) =>
          OneCharNotPlaceholder(body, EnglishOrderAt, t);
        case None =>
  }

  /** Text made only of the characters the order patterns capture. */
  predicate OrderText(t: string) {
    forall k :: 0 <= k < |t| ==> IsOrderChar(t[k])
  }

  /** The stripped capture of a pattern whose every match is made of order characters is made of them too. */
  lemma OrderCapture(body: string, m: (string, nat) -> Option<string>)
    requires forall j :: 0 <= j <= |body| && m(body, j).Some? ==>
      forall k :: 0 <= k < |m(body, j).value| ==> IsOrderChar(m(body, j).value[k])
    ensures Captured(body, m).Some? ==> OrderText(Strip(Captured(body, m).value))
  {
    CapturedHas(body, m, (t: string) => forall k :: 0 <= k < |t| ==> IsOrderChar(t[k]));
    if Captured(body, m).Some? {
      var t := Captured(body, m).value;
      StripFacts(t);
      forall k | 0 <= k < |Strip(t)| ensures IsOrderChar(Strip(t)[k]) {
        var c := Strip(t)[k];
        assert c in t;
        var i :| 0 <= i < |t| && t[i] == c;
      }
    }
  }

  /** A capture made only of id characters never strips to the placeholder. */
  lemma NotPlaceholder(t: string)
    requires forall k :: 0 <= k < |t| ==> IsIdChar(t[k])
    ensures Strip(t) != NoOrderNumber
  {
    hide Strip;
    var u := Strip(t);
    StripFacts(t);
    if |u| == 1 {
      assert u[0] in t;
      var i :| 0 <= i < |t| && t[i] == u[0];
      assert IsIdChar(u[0]) && !IsIdChar(NoOrderNumber[0]);
    }
  }

  /** Neither can the one-character capture of the lazy order patterns. */
  lemma OneCharNotPlaceholder(body: string, m: (string, nat) -> Option<string>, t: string)
    requires LeftmostCapture(body, m, t)
    requires forall j :: 0 <= j <= |body| && m(body, j).Some? ==>
      |m(body, j).value| == 1 && IsOrderChar(m(body, j).value[0])
    ensures Strip(t) != NoOrderNumber && |Strip(t)| <= 1
  {
    var j :| 0 <= j <= |body| && m(body, j) == Some(t) && forall j' :: 0 <= j' < j ==> m(body, j').None?;
    var u := Strip(t);
    StripFacts(t);
    if |u| == 1 {
      assert u[0] in t;
      assert u[0] == t[0];
      assert !IsOrderChar(NoOrderNumber[0]);
    }
  }

  /**
   * The order number: the labelled patterns first; only when none of them
   * matched, the loose code pattern, unstripped; the placeholder otherwise.
   */
  function OrderNumber(body: string): (r: string)
    ensures r == NoOrderNumber || OrderText(r)
  {
    IdCapture(body, OrderCodeAt);
    var o := LabelledOrderNumber(body);
    if o == NoOrderNumber then Captured(body, OrderCodeAt).GetOr(o) else o
  }

  lemma OrderNumberMeans(body: string)
    ensures LabelledOrderNumber(body) != NoOrderNumber ==> OrderNumber(body) == LabelledOrderNumber(body)
    ensures LabelledOrderNumber(body) == NoOrderNumber && MatchesSomewhere(body, OrderCodeAt) ==>
      LeftmostCapture(body, OrderCodeAt, OrderNumber(body)) && |OrderNumber(body)| >= 6
    ensures OrderNumber(body) == NoOrderNumber <==>
      LabelledOrderNumber(body) == NoOrderNumber && !MatchesSomewhere(body, OrderCodeAt)
  {
    CapturedMeans(body, OrderCodeAt);
    if Captured(body, OrderCodeAt).Some? {
      var t := Captured(body, OrderCodeAt).value;
      var j :| 0 <= j <= |body| && OrderCodeAt(body, j) == Some(t) && forall j' :: 0 <= j' < j ==> OrderCodeAt(body, j').None?;
    }
  }

  /** The rate with its decimal comma turned into a dot, and its currency; both "" without a match. */
  function RateAndCurrency(body: string): (r: (string, string))
    ensures forall k :: 0 <= k < |r.0| ==> IsDigit(r.0[k]) || r.0[k] == '.'
    ensures r.1 == [] || (|r.1| == 3 && forall k :: 0 <= k < 3 ==> IsLetter(r.1[k]))
  {
    CapturedHas(body, RateAt, (p: (string, string)) => forall k :: 0 <= k < |p.0| ==> IsRateChar(p.0[k]));
    CapturedHas(body, RateAt, (p: (string, string)) => |p.1| == 3 && forall k :: 0 <= k < 3 ==> IsLetter(p.1[k]));
    RateDigits(body);
    var found: Option<(string, string)> := Captured(body, RateAt);
    match found
    case Some((a, c)) => (Strip(ReplaceChar(a, ',', '.')), c)
    case None => ([], [])
  }

  /** The rate text with its commas turned into dots is made of digits and dots; so is its strip. */
  lemma RateDigits(body: string)
    ensures Captured(body, RateAt).Some? ==>
      var u := Strip(ReplaceChar(Captured(body, RateAt).value.0, ',', '.'));
      forall k :: 0 <= k < |u| ==> IsDigit(u[k]) || u[k] == '.'
  {
    CapturedHas(body, RateAt, (p: (string, string)) => forall k :: 0 <= k < |p.0| ==> IsRateChar(p.0[k]));
    if Captured(body, RateAt).Some? {
      var a := Captured(body, RateAt).value.0;
      var v := ReplaceChar(a, ',', '.');
      var u := Strip(v);
      StripFacts(v);
      forall k | 0 <= k < |u| ensures IsDigit(u[k]) || u[k] == '.' {
        assert u[k] in v;
        var i :| 0 <= i < |v| && v[i] == u[k];
        assert IsRateChar(a[i]);
      }
    }
  }

  lemma RateAndCurrencyMeans(body: string)
    ensures RateAndCurrency(body).1 != [] <==> MatchesSomewhere(body, RateAt)
    ensures RateAndCurrency(body).1 != [] ==> exists a :: LeftmostCapture(body, RateAt, (a, RateAndCurrency(body).1))
                                                && RateAndCurrency(body).0 == Strip(ReplaceChar(a, ',', '.'))
  {
    CapturedMeans(body, RateAt);
    CapturedHas(body, RateAt, (p: (string, string)) => |p.1| == 3);
    var found: Option<(string, string)> := Captured(body, RateAt);
    if found.Some? {
      assert LeftmostCapture(body, RateAt, (found.value.0, found.value.1));
    }
  }

  /** The rate has no comma left; the currency has three letters; no currency, no rate. */
  lemma RateAndCurrencyShape(body: string)
    ensures ',' !in RateAndCurrency(body).0
    ensures RateAndCurrency(body).1 != [] ==> |RateAndCurrency(body).1| == 3
    ensures RateAndCurrency(body).1 == [] ==> RateAndCurrency(body).0 == []
  {
    CapturedHas(body, RateAt, (p: (string, string)) => |p.1| == 3);
    var found: Option<(string, string)> := Captured(body, RateAt);
    if found.Some? {
      var dotted := ReplaceChar(found.value.0, ',', '.');
      assert ',' !in dotted;
      StripOmits(dotted, ',');
    }
  }

  /** The payment conditions: the lazy capture is always empty, so the field always is too. */
  function Conditions(body: string): (r: string)
    ensures r == []
  {
    match Captured(body, ConditionsAt)
    case Some(t) => Strip(t)
    case None => []
  }

  // ---------------------------------------------------------------------
  // Sender address
  // ---------------------------------------------------------------------

  function LastPiece(parts: seq<string>): string
    requires |parts| >= 1
  {
    parts[|parts| - 1]
  }

  /** The address is kept as it is: non-empty, with an '@' and a '.' after the last '@'. */
  predicate LooksLikeSmtp(a: string) {
    a != [] && '@' in a && '.' in LastPiece(Split(a, '@'))
  }

  /** The last piece of a split is what follows the last separator, or the whole string. */
  lemma {:induction false} SplitLastPiece(s: string, c: char)
    ensures c !in s ==> LastPiece(Split(s, c)) == s
    ensures c in s ==> exists i :: 0 <= i < |s| && s[i] == c && LastPiece(Split(s, c)) == s[i + 1..]
    decreases |s|
  {
    hide IndexOf;
    var i := IndexOf(s, c);
    if i >= 0 {
      var rest := s[i + 1..];
      var parts := Split(s, c);
      var tail := Split(rest, c);
      assert parts == [s[..i]] + tail;
      assert LastPiece(parts) == LastPiece(tail);
      SplitLastPiece(rest, c);
      if c in rest {
        var k :| 0 <= k < |rest| && rest[k] == c && LastPiece(tail) == rest[k + 1..];
        assert s[i + 1 + k] == c && s[i + 1 + k + 1..] == rest[k + 1..];
      } else {
        assert s[i] == c;
      }
    }
  }

  /** So the test is: some '@' has no '@' after it but a '.' somewhere after it. */
  lemma LooksLikeSmtpMeans(a: string)
    ensures LooksLikeSmtp(a) <==>
      exists i :: 0 <= i < |a| && a[i] == '@' && '@' !in a[i + 1..] && '.' in a[i + 1..]
  {
    SplitLastPiece(a, '@');
    var parts := Split(a, '@');
    assert '@' !in LastPiece(parts);
    if exists i :: 0 <= i < |a| && a[i] == '@' && '@' !in a[i + 1..] && '.' in a[i + 1..] {
      var i :| 0 <= i < |a| && a[i] == '@' && '@' !in a[i + 1..] && '.' in a[i + 1..];
      var k :| 0 <= k < |a| && a[k] == '@' && LastPiece(parts) == a[k + 1..];
      if k < i {
        assert a[k + 1..][i - k - 1] == '@';
      } else if i < k {
        assert a[i + 1..][k - i - 1] == '@';
      }
    }
  }

  /**
   * The sender address stored with an offer: the mail's own address when it
   * looks like SMTP, otherwise the SMTP address Outlook reports for the
   * sender when there is one containing '@', otherwise the mail's own address.
   */
  function SenderEmail(address: string, smtp: Option<string>): (r: string)
    ensures LooksLikeSmtp(address) ==> r == address
    ensures r == address || (smtp.Some? && r == smtp.value && '@' in r && r != [])
    ensures !LooksLikeSmtp(address) && smtp.Some? && '@' in smtp.value ==> r == smtp.value
  {
    if LooksLikeSmtp(address) then address
    else match smtp
      case Some(t) => if t != [] && '@' in t then t else address
      case None => address
  }

  // ---------------------------------------------------------------------
  // The cost section and its lines
  // ---------------------------------------------------------------------

  /**
   * The cost section exactly as the code computes it: `find` of the payment
   * heading, `or` the notes heading, `or` the body's length, where `or` passes
   * over a result of 0 but not over -1; then a slice where -1 cuts off the
   * last character.
   */
  function CostSection(body: string): (r: Option<string>)
    ensures r.Some? <==> Contains(body, CostHeading)
  {
    var start := Find(body, CostHeading, 0);
    if start < 0 then None
    else
      var e1 := Find(body, PaymentHeading, start);
      var e2 := Find(body, NotesHeading, start);
      var end := if e1 != 0 then e1 else if e2 != 0 then e2 else |body|;
      Some(PySlice(body, start, end))
  }

  /**
   * Both fallbacks are dead: the payment heading cannot be found at 0 when
   * the search starts at the cost heading. So the section runs from the cost
   * heading to the payment heading, or, without one, to the last character
   * but one: the notes heading never ends the section.
   */
  lemma CostSectionBounds(body: string)
    requires Contains(body, CostHeading)
    ensures var start := Find(body, CostHeading, 0);
      var e1 := Find(body, PaymentHeading, start);
      0 <= start && start + |CostHeading| <= |body|
      && (e1 >= 0 ==> CostSection(body) == Some(body[start..e1]))
      && (e1 < 0 ==> CostSection(body) == Some(body[start..|body| - 1]))
  {
    var start := Find(body, CostHeading, 0);
    var e1 := Find(body, PaymentHeading, start);
    HeadingsDiffer(body, start);
  }

  /** The cost heading and the payment heading never start at the same place. */
  lemma HeadingsDiffer(body: string, i: nat)
    ensures !(OccursAt(body, CostHeading, i) && OccursAt(body, PaymentHeading, i))
  {
    if OccursAt(body, CostHeading, i) {
      assert body[i..i + |CostHeading|][0] == body[i];
    }
  }

  /** The section's lines, each stripped, blank ones dropped. */
  function NonBlankLines(pieces: seq<string>): (r: seq<string>)
    ensures |r| <= |pieces|
    ensures forall k :: 0 <= k < |r| ==> r[k] != [] && r[k] == Strip(r[k])
    decreases |pieces|
  {
    if |pieces| == 0 then []
    else
      var rest := NonBlankLines(pieces[..|pieces| - 1]);
      var line := Strip(pieces[|pieces| - 1]);
      StripIdempotent(pieces[|pieces| - 1]);
      if line == [] then rest else rest + [line]
  }

  function SectionLines(section: string): (r: seq<string>)
    ensures forall k :: 0 <= k < |r| ==> '\n' !in r[k]
  {
    var pieces := Split(section, '\n');
    NonBlankLinesNoNewline(pieces);
    NonBlankLines(pieces)
  }

  lemma {:induction false} NonBlankLinesNoNewline(pieces: seq<string>)
    requires forall k :: 0 <= k < |pieces| ==> '\n' !in pieces[k]
    ensures forall k :: 0 <= k < |NonBlankLines(pieces)| ==> '\n' !in NonBlankLines(pieces)[k]
    decreases |pieces|
  {
    if |pieces| > 0 {
      NonBlankLinesNoNewline(pieces[..|pieces| - 1]);
      StripFacts(pieces[|pieces| - 1]);
    }
  }

  /** `lines[1:]`: every line but the heading's. */
  function AfterHeading(lines: seq<string>): seq<string>
  {
    if |lines| == 0 then [] else lines[1..]
  }

  /** The amount text made ready for `float`: ASCII spaces removed, commas turned into dots. */
  function CleanAmount(t: string): (r: string)
    ensures ' ' !in r && ',' !in r
  {
    var u := RemoveChar(t, ' ');
    var v := ReplaceChar(u, ',', '.');
    assert forall k :: 0 <= k < |v| ==> v[k] != ' ';
    v
  }

  /**
   * The cost line that catalogue item `k` yields for `line`: the line starts
   * with the item's name, the cost pattern matches in the rest of the line,
   * and its amount converts to a number.
   */
  function ItemEntry(line: string, k: nat): (r: Option<CostLine>)
    requires k < |Catalogue|
    ensures r.Some? ==> StartsWith(line, Catalogue[k]) && r.value.item == Some(Catalogue[k])
    ensures r.Some? ==> r.value.cost.Some? && r.value.cost.value >= 0.0
    ensures r.Some? ==> r.value.currency.Some? && |r.value.currency.value| == 3
  {
    var item := Catalogue[k];
    if !StartsWith(line, item) then None
    else
      var rest := Strip(line[|item|..]);
      var found: Option<(string, string)> := Captured(rest, AmountAt);
      match found
      case None => None
      case Some((amount, currency)) =>
        CapturedMeans(rest, AmountAt);
        AmountCurrencyLength(rest, amount, currency);
        match ParseFloat(CleanAmount(amount))
        case None => None
        case Some(v) => Some(CostLine(Some(item), Some(v), Some(currency)))
  }

  /**
   * An entry for item `k` is exactly the conversion of the cost pattern's
   * leftmost capture in the rest of the line: the amount text with its ASCII
   * spaces removed and commas turned into dots, read by `float()`, and the
   * captured currency. A capture whose amount `float()` refuses yields nothing.
   */
  lemma ItemEntryMeans(line: string, k: nat)
    requires k < |Catalogue|
    ensures ItemEntry(line, k).Some? ==>
      StartsWith(line, Catalogue[k])
      && (exists a, c :: LeftmostCapture(Strip(line[|Catalogue[k]|..]), AmountAt, (a, c))
            && IsDecimal(Strip(CleanAmount(a)))
            && ItemEntry(line, k) == Some(CostLine(Some(Catalogue[k]), Some(DecimalValue(Strip(CleanAmount(a)))), Some(c))))
    ensures forall a, c ::
      (StartsWith(line, Catalogue[k]) && LeftmostCapture(Strip(line[|Catalogue[k]|..]), AmountAt, (a, c))) ==>
        ItemEntry(line, k) == (if IsDecimal(Strip(CleanAmount(a)))
                               then Some(CostLine(Some(Catalogue[k]), Some(DecimalValue(Strip(CleanAmount(a)))), Some(c)))
                               else None)
    ensures StartsWith(line, Catalogue[k]) && !MatchesSomewhere(Strip(line[|Catalogue[k]|..]), AmountAt) ==>
      ItemEntry(line, k).None?
  {
    var item := Catalogue[k];
    if StartsWith(line, item) {
      var rest := Strip(line[|item|..]);
      CapturedMeans(rest, AmountAt);
      forall a, c | LeftmostCapture(rest, AmountAt, (a, c))
        ensures ItemEntry(line, k) == (if IsDecimal(Strip(CleanAmount(a)))
                                       then Some(CostLine(Some(item), Some(DecimalValue(Strip(CleanAmount(a)))), Some(c)))
                                       else None)
      {
        CapturedIs(rest, AmountAt, (a, c));
      }
      if ItemEntry(line, k).Some? {
        var found: Option<(string, string)> := Captured(rest, AmountAt);
        var (a, c) := found.value;
        assert LeftmostCapture(rest, AmountAt, (a, c));
      }
    }
  }

  /** The cleaning works character by character: a space goes, a comma becomes a dot, the rest stays. */
  lemma CleanAmountMeans(t: string, u: string, x: char)
    ensures CleanAmount(t + u) == CleanAmount(t) + CleanAmount(u)
    ensures CleanAmount([x]) == if x == ' ' then [] else if x == ',' then ['.'] else [x]
  {
    hide RemoveChar, ReplaceChar;
    RemoveCharAppend(t, u, ' ');
    RemoveCharSingle(x, ' ');
    var a := RemoveChar(t, ' ');
    var b := RemoveChar(u, ' ');
    assert ReplaceChar(a + b, ',', '.') == ReplaceChar(a, ',', '.') + ReplaceChar(b, ',', '.');
  }

  /** A line that starts with a catalogue name yields what that item yields. */
  lemma LineOfItem(line: string, i: nat)
    requires i < |Catalogue| && StartsWith(line, Catalogue[i])
    ensures LineEntry(line) == ItemEntry(line, i)
  {
    match FirstItem(line, 0)
    case None =>
      assert false;
    case Some(k) =>
      AtMostOneItemPrefix(line, k, i);
      LineEntryOfPrefixItem(line);
  }

  /** The example line of the cost parser: thousands split by a space, and a decimal comma. */
  lemma CostLineExample()
    ensures LineEntry("Sea freight            1 470,50     USD")
      == Some(CostLine(Some("Sea freight"), Some(1470.5), Some("USD")))
  {
    hide Strip, Captured, CleanAmount, ParseFloat, LineEntry;
    var line := "Sea freight            1 470,50     USD";
    var item := Catalogue[2];
    assert line[..|item|] == item;
    LineOfItem(line, 2);
    assert line[|item|..] == "            1 470,50     USD";
    ExampleStrip();
    ExampleCapture();
    ExampleClean();
    ExampleFloat();
  }

  lemma ExampleStrip()
    ensures Strip("            1 470,50     USD") == "1 470,50     USD"
  {
    var spaces := "            ";
    var rest := "1 470,50     USD";
    var tail := spaces + rest;
    assert tail == "            1 470,50     USD";
    assert forall k :: 0 <= k < 12 ==> tail[k] == ' ';
    RunEndAt(tail, 0, 12, IsSpace);
    assert tail[|tail| - 1] == 'D';
    assert TrailStart(tail, 12, |tail|) == |tail|;
    assert tail[12..] == rest;
  }

  lemma ExampleCapture()
    ensures Captured("1 470,50     USD", AmountAt) == Some(("1 470,50    ", "USD"))
  {
    hide AmountAt;
    ExampleAmount();
  }

  lemma ExampleAmount()
    ensures AmountAt("1 470,50     USD", 0) == Some(("1 470,50    ", "USD"))
  {
    hide RunEnd;
    var rest := "1 470,50     USD";
    assert forall k :: 0 <= k < 13 ==> IsAmountChar(rest[k]);
    RunEndAt(rest, 0, 13, IsAmountChar);
    assert IsSpace(rest[12]) && IsUpper(rest[13]) && IsUpper(rest[14]) && IsUpper(rest[15]);
    assert rest[0..12] == "1 470,50    " && rest[13..16] == "USD";
  }

  lemma ExampleClean()
    ensures CleanAmount("1 470,50    ") == "1470.50"
  {
    hide RemoveChar, ReplaceChar;
    var amount := "1 470,50    ";
    assert amount == "1" + " " + "470,50" + "    ";
    RemoveCharAppend("1" + " " + "470,50", "    ", ' ');
    RemoveCharAppend("1" + " ", "470,50", ' ');
    RemoveCharAppend("1", " ", ' ');
    RemoveCharSingle(' ', ' ');
    assert ' ' !in "1" && ' ' !in "470,50";
    RemoveCharAll("    ", ' ');
    var removed := "1470,50";
    assert RemoveChar(amount, ' ') == removed;
    var dotted := ReplaceChar(removed, ',', '.');
    assert |dotted| == 7;
    assert dotted == "1470.50" by {
      assert forall k :: 0 <= k < 7 ==> dotted[k] == "1470.50"[k];
    }
  }

  /** The literal's digits before and after its dot. */
  lemma ExampleDigits()
    ensures AllDigits("1470") && DigitsValue("1470") == 1470
    ensures AllDigits("50") && FractionValue("50") == 0.5
  {
    assert "1470"[..3] == "147" && "147"[..2] == "14" && "14"[..1] == "1" && "1"[..0] == "";
    assert DigitsValue("1") == 1;
    assert DigitsValue("14") == 14;
    assert DigitsValue("147") == 147;
    assert "50"[1..] == "0" && "0"[1..] == "";
    assert FractionValue("0") == 0.0;
  }

  lemma ExampleFloat()
    ensures ParseFloat("1470.50") == Some(1470.5)
  {
    hide DigitsValue, FractionValue, IndexOf, Strip;
    var digits := "1470.50";
    assert !IsSpace(digits[0]) && !IsSpace(digits[6]);
    StripNoEdges(digits);
    var d := IndexOf(digits, '.');
    assert digits[4] == '.';
    assert d == 4 by {
      assert '.' !in digits[..4];
    }
    assert digits[..4] == "1470" && digits[5..] == "50";
    ExampleDigits();
    assert IsDecimal(digits);
    assert DecimalValue(digits) == 1470.5;
  }

  lemma AmountCurrencyLength(s: string, a: string, c: string)
    requires LeftmostCapture(s, AmountAt, (a, c))
    ensures |c| == 3 && forall k :: 0 <= k < 3 ==> IsUpper(c[k])
  {
    var j :| 0 <= j <= |s| && AmountAt(s, j) == Some((a, c)) && forall j' :: 0 <= j' < j ==> AmountAt(s, j').None?;
  }

  /** The first catalogue item at or after `from` whose name starts the line. */
  function FirstItem(line: string, from: nat): (r: Option<nat>)
    requires from <= |Catalogue|
    ensures r.Some? ==> from <= r.value < |Catalogue| && StartsWith(line, Catalogue[r.value])
    ensures r.None? ==> forall k :: from <= k < |Catalogue| ==> !StartsWith(line, Catalogue[k])
    decreases |Catalogue| - from
  {
    if from == |Catalogue| then None
    else if StartsWith(line, Catalogue[from]) then Some(from)
    else FirstItem(line, from + 1)
  }

  /** What each catalogue item yields for the line, in catalogue order. */
  function ItemEntries(line: string): (r: seq<Option<CostLine>>)
    ensures |r| == |Catalogue|
  {
    seq(|Catalogue|, k requires 0 <= k < |Catalogue| => ItemEntry(line, k))
  }

  /** The first present value at or after `from`. */
  function FirstSome<T>(xs: seq<Option<T>>, from: nat): (r: Option<T>)
    requires from <= |xs|
    ensures r.Some? ==> exists j :: from <= j < |xs| && xs[j] == r && forall i :: from <= i < j ==> xs[i].None?
    ensures r.None? ==> forall j :: from <= j < |xs| ==> xs[j].None?
    decreases |xs| - from
  {
    if from == |xs| then None
    else if xs[from].Some? then xs[from]
    else FirstSome(xs, from + 1)
  }

  /** When only position `k` can hold a value, the first present value is whatever `k` holds. */
  lemma {:induction false} FirstSomeOnly<T>(xs: seq<Option<T>>, from: nat, k: nat)
    requires from <= k < |xs|
    requires forall j :: from <= j < |xs| && j != k ==> xs[j].None?
    ensures FirstSome(xs, from) == xs[k]
    decreases |xs| - from
  {
    if from < k {
      FirstSomeOnly(xs, from + 1, k);
    } else {
      FirstSomeNone(xs, k + 1);
    }
  }

  lemma {:induction false} FirstSomeNone<T>(xs: seq<Option<T>>, from: nat)
    requires from <= |xs|
    requires forall j :: from <= j < |xs| ==> xs[j].None?
    ensures FirstSome(xs, from).None?
    decreases |xs| - from
  {
    if from < |xs| {
      FirstSomeNone(xs, from + 1);
    }
  }

  /** The first present entry over the catalogue is some item's entry, all earlier ones absent. */
  lemma FirstItemEntry(line: string)
    ensures var r := FirstSome(ItemEntries(line), 0);
      && (r.Some? ==> exists k :: 0 <= k < |Catalogue| && r == ItemEntry(line, k)
                                  && forall i :: 0 <= i < k ==> ItemEntry(line, i).None?)
      && (r.None? ==> forall k :: 0 <= k < |Catalogue| ==> ItemEntry(line, k).None?)
  {
    hide ItemEntry;
    var xs := ItemEntries(line);
    assert forall k :: 0 <= k < |Catalogue| ==> xs[k] == ItemEntry(line, k);
  }

  /** The cost line a line yields: the entry of the first catalogue item that yields one. */
  function LineEntry(line: string): (r: Option<CostLine>)
    ensures r.Some? ==> exists k :: 0 <= k < |Catalogue| && r == ItemEntry(line, k)
                                    && forall i :: 0 <= i < k ==> ItemEntry(line, i).None?
    ensures r.None? ==> forall k :: 0 <= k < |Catalogue| ==> ItemEntry(line, k).None?
  {
    FirstItemEntry(line);
    FirstSome(ItemEntries(line), 0)
  }

  /**
   * Since no two catalogue names start the same line, the first item to
   * yield is the one item whose name the line starts with: a line yields
   * through that item or not at all.
   */
  lemma LineEntryOfPrefixItem(line: string)
    ensures FirstItem(line, 0).None? ==> LineEntry(line).None?
    ensures FirstItem(line, 0).Some? ==> LineEntry(line) == ItemEntry(line, FirstItem(line, 0).value)
  {
    var xs := ItemEntries(line);
    match FirstItem(line, 0)
    case None =>
      assert forall j :: 0 <= j < |xs| ==> xs[j].None? by {
        forall j | 0 <= j < |xs| ensures xs[j].None? {
          assert xs[j] == ItemEntry(line, j);
        }
      }
      FirstSomeNone(xs, 0);
    case Some(k) =>
      assert forall j :: 0 <= j < |xs| && j != k ==> xs[j].None? by {
        forall j | 0 <= j < |xs| && j != k ensures xs[j].None? {
          assert xs[j] == ItemEntry(line, j);
          if xs[j].Some? {
            AtMostOneItemPrefix(line, j, k);
          }
        }
      }
      FirstSomeOnly(xs, 0, k);
  }

  /** An entry names a catalogue item and carries a cost and a three-letter currency. */
  lemma LineEntryWellFormed(line: string)
    ensures LineEntry(line).Some? ==>
      var c := LineEntry(line).value;
      c.item.Some? && c.item.value in Catalogue && StartsWith(line, c.item.value)
      && c.cost.Some? && c.cost.value >= 0.0 && c.currency.Some? && |c.currency.value| == 3
  {
    var xs := ItemEntries(line);
    if LineEntry(line).Some? {
      var j :| 0 <= j < |xs| && xs[j] == LineEntry(line);
      assert xs[j] == ItemEntry(line, j);
      assert Catalogue[j] in Catalogue;
    }
  }

  /** The cost lines of the given lines, in order, one per line that yields one. */
  function CostEntries(lines: seq<string>): seq<CostLine>
  {
    Collect(lines, LineEntry)
  }

  /** Each line contributes on its own, whatever the lines around it. */
  lemma CostEntriesAppend(a: seq<string>, b: seq<string>)
    ensures CostEntries(a + b) == CostEntries(a) + CostEntries(b)
  {
    CollectAppend(a, b, LineEntry);
  }

  /**
   * Every entry names a catalogue item the entry's line starts with and
   * carries a non-negative cost and a three-letter currency; and every line
   * that yields an entry has it among the entries.
   */
  lemma CostEntriesWellFormed(lines: seq<string>)
    ensures forall c :: c in CostEntries(lines) ==>
      c.item.Some? && c.item.value in Catalogue && c.cost.Some? && c.cost.value >= 0.0
      && c.currency.Some? && |c.currency.value| == 3
    ensures forall k :: 0 <= k < |lines| && LineEntry(lines[k]).Some? ==>
      LineEntry(lines[k]).value in CostEntries(lines)
  {
    CollectMembers(lines, LineEntry);
    CollectComplete(lines, LineEntry);
    forall c | c in CostEntries(lines)
      ensures c.item.Some? && c.item.value in Catalogue && c.cost.Some? && c.cost.value >= 0.0
              && c.currency.Some? && |c.currency.value| == 3
    {
      var k :| 0 <= k < |lines| && LineEntry(lines[k]) == Some(c);
      LineEntryWellFormed(lines[k]);
    }
  }

  /** The cost lines of a section: those of every line after the heading line. */
  function SectionCosts(section: string): (r: seq<CostLine>)
    ensures forall c :: c in r ==>
      c.item.Some? && c.item.value in Catalogue && c.cost.Some? && c.cost.value >= 0.0
      && c.currency.Some? && |c.currency.value| == 3
    ensures |r| <= |AfterHeading(SectionLines(section))|
  {
    CostEntriesWellFormed(AfterHeading(SectionLines(section)));
    CollectLength(AfterHeading(SectionLines(section)), LineEntry);
    CostEntries(AfterHeading(SectionLines(section)))
  }

  /**
   * The search over the catalogue for one line: the items in order; the
   * first that yields an entry ends the search, a failed match or a failed
   * conversion moves on to the next item.
   */
  method MatchLine(line: string) returns (entry: Option<CostLine>)
    ensures entry == LineEntry(line)
  {
    entry := None;
    var k := 0;
    while k < |Catalogue|
      invariant 0 <= k <= |Catalogue|
      invariant FirstSome(ItemEntries(line), k) == LineEntry(line)
    {
      var e := ItemEntry(line, k);
      assert ItemEntries(line)[k] == e;
      if e.Some? {
        entry := e;
        break;
      }
      k := k + 1;
    }
  }

  /** The loop over the lines after the heading, each searched against the catalogue. */
  method ExtractCosts(lines: seq<string>) returns (costs: seq<CostLine>)
    ensures costs == CostEntries(AfterHeading(lines))
  {
    var body := AfterHeading(lines);
    costs := [];
    var i := 0;
    while i < |body|
      invariant 0 <= i <= |body|
      invariant costs == CostEntries(body[..i])
    {
      var entry := MatchLine(body[i]);
      CollectStep(body, i, costs, entry, LineEntry);
      costs := costs + OptionSeq(entry);
      i := i + 1;
    }
    CollectWhole(body, LineEntry);
  }

  // ---------------------------------------------------------------------
  // Messages and the ingestion pass
  // ---------------------------------------------------------------------

  /** What the pass reads of one mail item besides its unread flag. */
  datatype Message = Message(
    body: string,
    senderName: string,
    senderAddress: string,
    smtpAddress: Option<string>,
    received: string,
    subject: string)

  /** The offer a message yields: one exactly when its body has a cost heading. */
  function OfferOf(m: Message): (r: Option<Offer>)
    ensures r.Some? <==> Contains(m.body, CostHeading)
    ensures r.Some? ==> (r.value.status == New && r.value.lastStatusChange == NoStamp
                         && r.value.sender == m.senderName && r.value.bidId == RequestId(m.body))
  {
    match CostSection(m.body)
    case None => None
    case Some(section) =>
      var (rate, currency) := RateAndCurrency(m.body);
      Some(Offer(
        sender := m.senderName,
        senderEmail := SenderEmail(m.senderAddress, m.smtpAddress),
        emailDate := m.received,
        subject := m.subject,
        bidId := RequestId(m.body),
        orderNumber := OrderNumber(m.body),
        rate := rate,
        currency := currency,
        conditions := Conditions(m.body),
        status := New,
        costs := SectionCosts(section),
        lastStatusChange := NoStamp))
  }

  /** The request id does not decide acceptance: a reply without one is taken like any other. */
  lemma AcceptedWithoutRequestId(m: Message)
    requires Contains(m.body, CostHeading) && RequestId(m.body) == []
    ensures OfferOf(m).Some? && OfferOf(m).value.bidId == []
  {
  }

  /**
   * The offers of a pass are all new, with no status change recorded, and
   * there is at most one per mail item.
   */
  lemma PassOffersAreNew(unread: seq<bool>, ms: seq<Message>, results: seq<Option<Offer>>)
    requires |unread| == |ms| == |results|
    requires forall k :: 0 <= k < |ms| ==> results[k] == (if unread[k] then OfferOf(ms[k]) else None)
    ensures forall o :: o in Somes(results) ==> o.status == New && o.lastStatusChange == NoStamp
    ensures |Somes(results)| <= |ms|
  {
    SomesMembers(results);
  }

  /** An Outlook mail item: only its unread flag changes. */
  class MailItem {
    const message: Message
    var unread: bool

    constructor (message: Message, unread: bool)
      ensures this.message == message && this.unread == unread
    {
      this.message := message;
      this.unread := unread;
    }
  }

  /** The stored offers. */
  class OfferStore {
    var offers: seq<Offer>

    constructor (offers: seq<Offer>)
      ensures this.offers == offers
    {
      this.offers := offers;
    }
  }

  /**
   * The parse of one unread message: the request id, the order number, the
   * rate, the conditions and, when the body has a cost heading, the cost
   * lines of its cost section; an offer only when there is that heading.
   */
  method ParseOffer(m: Message) returns (r: Option<Offer>)
    ensures r == OfferOf(m)
  {
    var body := m.body;
    var start := Find(body, CostHeading, 0);
    if start > -1 {
      var section := CostSection(body).value;
      var costs := ExtractCosts(SectionLines(section));
      var (rate, currency) := RateAndCurrency(body);
      r := Some(Offer(
        sender := m.senderName,
        senderEmail := SenderEmail(m.senderAddress, m.smtpAddress),
        emailDate := m.received,
        subject := m.subject,
        bidId := RequestId(body),
        orderNumber := OrderNumber(body),
        rate := rate,
        currency := currency,
        conditions := Conditions(body),
        status := New,
        costs := costs,
        lastStatusChange := NoStamp));
    } else {
      r := None;
    }
  }

  /**
   * The pass over a folder: each unread item whose message has a cost
   * heading yields a new offer and is marked read; the other items are left
   * as they are; the new offers, in folder order, are appended to the store.
   */
  method Ingest(items: seq<MailItem>, store: OfferStore) returns (newOffers: seq<Offer>, ghost results: seq<Option<Offer>>)
    requires forall i, j :: 0 <= i < |items| && 0 <= j < |items| && i != j ==> items[i] != items[j]
    modifies items, store
    ensures |results| == |items|
    ensures forall k :: 0 <= k < |items| ==> results[k] == (if old(items[k].unread) then OfferOf(items[k].message) else None)
    ensures newOffers == Somes(results)
    ensures store.offers == old(store.offers) + newOffers
    ensures forall k :: 0 <= k < |items| ==> items[k].unread == (old(items[k].unread) && results[k].None?)
  {
    // The loop only passes parse results along: no function body is needed below.
    hide *;
    ghost var wasUnread := seq(|items|, k reads items requires 0 <= k < |items| => items[k].unread);
    results := [];
    newOffers := [];
    var i := 0;
    while i < |items|
      invariant 0 <= i <= |items| && |results| == i
      invariant newOffers == Somes(results)
      invariant forall k :: 0 <= k < i ==> results[k] == (if wasUnread[k] then OfferOf(items[k].message) else None)
      invariant forall k :: 0 <= k < i ==> items[k].unread == (wasUnread[k] && results[k].None?)
      invariant forall k :: i <= k < |items| ==> items[k].unread == wasUnread[k]
      invariant store.offers == old(store.offers)
    {
      var m := items[i];
      var offer: Option<Offer> := None;
      if m.unread {
        offer := ParseOffer(m.message);
        if offer.Some? {
          newOffers := newOffers + [offer.value];
          m.unread := false;
        }
      }
      SomesSnoc(results, offer);
      results := results + [offer];
      i := i + 1;
    }
    if |newOffers| > 0 {
      store.offers := store.offers + newOffers;
    }
  }
}
