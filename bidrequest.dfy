/**
 * Sending a shipment request: the checks on the request form, the request
 * built from it, the mail text built from a request, the carriers' address
 * fields and the send pass over them, the size filter on attachments, and
 * the check on the edited carrier table.
 */
module BidRequest {
  import opened Wrappers
  import opened Text
  import opened Offers
  import opened Folds

  // ---------------------------------------------------------------------
  // The request form
  // ---------------------------------------------------------------------

  /** What the request form holds when it is submitted: one amount and one currency per catalogue row. */
  datatype BidForm = BidForm(
    id: string,
    orderNumber: string,
    details: BidDetails,
    amounts: seq<real>,
    currencies: seq<string>)

  /** The six fields marked as required, each non-empty. */
  predicate RequiredFilled(f: BidForm) {
    f.id != [] && f.details.countryFrom != [] && f.details.portFrom != []
    && f.details.cargoType != [] && f.details.loadingAddress != [] && f.details.paymentTerms != []
  }

  /** The status a new request is stored with. */
  const NewBidStatus: string := "Новая"

  /**
   * Submitting the form: None (an error shown, nothing stored) unless every
   * required field is filled; otherwise the request to store, dated `now`,
   * whose cost rows follow the catalogue.
   */
  function SubmitBid(f: BidForm, now: string): (r: Option<Bid>)
    requires |f.amounts| == |Catalogue| && |f.currencies| == |Catalogue|
    ensures r.Some? <==> RequiredFilled(f)
    ensures r.Some? ==> (r.value.id == f.id && r.value.orderNumber == Some(f.orderNumber)
                         && r.value.dateCreated == now && r.value.status == NewBidStatus && r.value.details == f.details)
    ensures r.Some? ==> (|r.value.costs| == |Catalogue|
                         && forall i :: 0 <= i < |Catalogue| ==> r.value.costs[i] == BidCost(Catalogue[i], f.amounts[i], f.currencies[i]))
  {
    if !RequiredFilled(f) then None
    else
      var costs := seq(|Catalogue|, i requires 0 <= i < |Catalogue| => BidCost(Catalogue[i], f.amounts[i], f.currencies[i]));
      Some(Bid(f.id, Some(f.orderNumber), now, NewBidStatus, f.details, costs))
  }

  // ---------------------------------------------------------------------
  // The request mail
  // ---------------------------------------------------------------------

  /** The instructions the mail opens with. */
  const Instructions: seq<string> := [
    "Уважаемый партнер,",
    "срок предоставления ответа до 15:00 следующего дня, заявки, полученные позже будут отклонены автоматически.",
    "Для корректного заполнения заявки необходимо в ответном сообщении заполнить форму заявки, не меняя текст сообщения,",
    "указать стоимость, валюту в формате \"RUB\" или \"USD\", очередность полей не менять, не удалять и не добавлять.",
    "При необходимости дополнить информацию в поле \"Примечания\""
  ]

  /** The lines before the cost lines: instructions, the request's fields and the headings. */
  function HeaderLines(bid: Bid): (r: seq<string>)
    ensures |r| == CostLinesStart && r[CostLinesStart - 1] == "Расчет стоимости:"
  {
    Instructions + [
      "",
      "ID заявки: " + bid.id,
      "Номер заказа: " + bid.orderNumber.GetOr("Не указан"),
      "Страна отправки: " + bid.details.countryFrom,
      "Условие отгрузки: " + bid.details.incoterm,
      "Порт отправки: " + bid.details.portFrom,
      "Дата готовности груза: " + bid.details.readyDate,
      "Тип контейнера: " + bid.details.containerType,
      "Способ доставки: " + bid.details.deliveryMethod,
      "Груз: " + bid.details.cargoType,
      "Код ТНВЭД: " + bid.details.hsCode,
      "",
      "Описание груза:",
      "Адрес погрузки: " + bid.details.loadingAddress,
      "",
      "Расчет стоимости:"
    ]
  }

  /** Where the cost lines begin. */
  const CostLinesStart: nat := 21

  /** The request's cost row for a catalogue item: the first with exactly that item, else 0.0 USD. */
  function CostFor(bid: Bid, item: string): (c: BidCost)
    ensures (forall k :: 0 <= k < |bid.costs| ==> bid.costs[k].item != item) ==> c == BidCost(item, 0.0, "USD")
    ensures forall i :: (0 <= i < |bid.costs| && bid.costs[i].item == item
                         && forall k :: 0 <= k < i ==> bid.costs[k].item != item) ==> c == bid.costs[i]
  {
    FirstOr(bid.costs, (b: BidCost) => b.item == item, BidCost(item, 0.0, "USD"))
  }

  /** A cost line; `show` is the program's text form of an amount. */
  function CostText(item: string, c: BidCost, show: real -> string): string {
    item + ": " + show(c.cost) + " " + c.currency
  }

  /** One cost line per catalogue item, in catalogue order. */
  function CostLines(bid: Bid, show: real -> string): (r: seq<string>)
    ensures |r| == |Catalogue|
  {
    seq(|Catalogue|, i requires 0 <= i < |Catalogue| => CostText(Catalogue[i], CostFor(bid, Catalogue[i]), show))
  }

  function FooterLines(bid: Bid): (r: seq<string>)
    ensures |r| == 4 && r[1] == "Условия оплаты: " + bid.details.paymentTerms && r[3] == "Примечания:"
  {
    ["", "Условия оплаты: " + bid.details.paymentTerms, "", "Примечания:"]
  }

  /** Where the description lines begin. */
  const TextLinesStart: nat := 32

  /** A line of a free-text field as the mail carries it: dropped when blank, else indented by two spaces. */
  function IndentLine(line: string): Option<string> {
    if Strip(line) == [] then None else Some("  " + line)
  }

  /** The lines of a free-text field. */
  function LinesOf(text: string): seq<string> { Split(text, '\n') }

  /** The mail lines a free-text field contributes. */
  function Indented(text: string): seq<string> {
    if text == [] then [] else Collect(LinesOf(text), IndentLine)
  }

  /** The mail as a list of lines; the description and the notes come after the notes heading. */
  function MailLines(bid: Bid, show: real -> string): (r: seq<string>)
    ensures |r| >= CostLinesStart + |Catalogue| + 4
    ensures r[CostLinesStart - 1] == "Расчет стоимости:"
    ensures r[CostLinesStart + |Catalogue| + 1] == "Условия оплаты: " + bid.details.paymentTerms
    ensures r[CostLinesStart + |Catalogue| + 3] == "Примечания:"
  {
    HeaderLines(bid) + CostLines(bid, show) + FooterLines(bid)
      + Indented(bid.details.cargoDescription) + Indented(bid.details.notes)
  }

  /** Adds the lines a free-text field contributes. */
  method AppendIndented(lines: seq<string>, text: string) returns (r: seq<string>)
    ensures r == lines + Indented(text)
  {
    hide Strip, Split;
    r := lines;
    if text != [] {
      var parts := LinesOf(text);
      var j := 0;
      while j < |parts|
        invariant 0 <= j <= |parts|
        invariant r == lines + Collect(parts[..j], IndentLine)
      {
        CollectStep(parts, j, Collect(parts[..j], IndentLine), IndentLine(parts[j]), IndentLine);
        if Strip(parts[j]) != [] {
          r := r + ["  " + parts[j]];
        }
        j := j + 1;
      }
      CollectWhole(parts, IndentLine);
    }
  }

  /** The mail text sent for a request: its lines joined by newlines. */
  method FormatBidEmail(bid: Bid, show: real -> string) returns (text: string)
    ensures text == Join(MailLines(bid, show), '\n')
  {
    hide Instructions, HeaderLines, FooterLines, Indented, CostFor, CostText, Catalogue;
    var lines := HeaderLines(bid);
    var i := 0;
    while i < |Catalogue|
      invariant 0 <= i <= |Catalogue|
      invariant lines == HeaderLines(bid) + CostLines(bid, show)[..i]
    {
      var item := Catalogue[i];
      assert CostLines(bid, show)[..i + 1] == CostLines(bid, show)[..i] + [CostText(item, CostFor(bid, item), show)];
      lines := lines + [CostText(item, CostFor(bid, item), show)];
      i := i + 1;
    }
    assert CostLines(bid, show)[..i] == CostLines(bid, show);
    lines := lines + FooterLines(bid);
    lines := AppendIndented(lines, bid.details.cargoDescription);
    lines := AppendIndented(lines, bid.details.notes);
    text := Join(lines, '\n');
  }

  /** Line i of the cost block names catalogue item i with the first matching cost row, or 0.0 USD. */
  lemma MailCostLine(bid: Bid, show: real -> string, i: nat)
    requires i < |Catalogue|
    ensures CostLinesStart + i < |MailLines(bid, show)|
    ensures MailLines(bid, show)[CostLinesStart + i] == CostText(Catalogue[i], CostFor(bid, Catalogue[i]), show)
  {
    hide Instructions, HeaderLines, FooterLines, Indented, CostFor, CostText, Catalogue;
    var h := HeaderLines(bid);
    var c := CostLines(bid, show);
    assert |h| == CostLinesStart;
    var hc := h + c;
    assert hc[CostLinesStart + i] == c[i];
    var rest := FooterLines(bid) + Indented(bid.details.cargoDescription) + Indented(bid.details.notes);
    assert MailLines(bid, show) == hc + rest;
  }

  /** Distinct catalogue rows name distinct items. */
  lemma CatalogueDistinct(a: nat, b: nat)
    requires a < |Catalogue| && b < |Catalogue| && Catalogue[a] == Catalogue[b]
    ensures a == b
  {
    assert |Catalogue[a]| > 0;
    CatalogueFirstCharInjective(a, b);
  }

  /** A request made from the form mails back, for item i, exactly the amount and currency entered for it. */
  lemma SubmittedMailShowsFormCosts(f: BidForm, now: string, show: real -> string, i: nat)
    requires |f.amounts| == |Catalogue| && |f.currencies| == |Catalogue|
    requires SubmitBid(f, now).Some? && i < |Catalogue|
    ensures CostLinesStart + i < |MailLines(SubmitBid(f, now).value, show)|
    ensures MailLines(SubmitBid(f, now).value, show)[CostLinesStart + i]
      == Catalogue[i] + ": " + show(f.amounts[i]) + " " + f.currencies[i]
  {
    hide Instructions, HeaderLines, FooterLines, Indented, MailLines, CostLines;
    var bid := SubmitBid(f, now).value;
    MailCostLine(bid, show, i);
    forall k | 0 <= k < i
      ensures bid.costs[k].item != Catalogue[i]
    {
      if bid.costs[k].item == Catalogue[i] {
        CatalogueDistinct(k, i);
      }
    }
    assert CostFor(bid, Catalogue[i]) == bid.costs[i];
  }

  /**
   * The description heading is followed at once by the loading address; the
   * description's lines come only after the notes heading.
   */
  lemma DescriptionUnderNotes(bid: Bid, show: real -> string)
    ensures |MailLines(bid, show)| == TextLinesStart + |Indented(bid.details.cargoDescription)| + |Indented(bid.details.notes)|
    ensures MailLines(bid, show)[17] == "Описание груза:"
    ensures MailLines(bid, show)[18] == "Адрес погрузки: " + bid.details.loadingAddress
    ensures MailLines(bid, show)[TextLinesStart - 1] == "Примечания:"
    ensures MailLines(bid, show)[TextLinesStart..TextLinesStart + |Indented(bid.details.cargoDescription)|]
      == Indented(bid.details.cargoDescription)
  {
    hide Indented, CostFor, CostText;
    var m := MailLines(bid, show);
    var top := HeaderLines(bid) + CostLines(bid, show) + FooterLines(bid);
    assert |top| == TextLinesStart;
    assert m == top + Indented(bid.details.cargoDescription) + Indented(bid.details.notes);
    assert m[17] == top[17] == HeaderLines(bid)[17];
    assert m[18] == top[18] == HeaderLines(bid)[18];
    assert m[TextLinesStart - 1] == top[TextLinesStart - 1] == FooterLines(bid)[3];
  }

  /** Every line kept from a list of lines is a non-blank one of them, indented. */
  lemma IndentedLinesSound(parts: seq<string>)
    ensures forall l :: l in Collect(parts, IndentLine) ==>
      exists k :: 0 <= k < |parts| && Strip(parts[k]) != [] && l == "  " + parts[k]
  {
    CollectMembers(parts, IndentLine);
    forall l | l in Collect(parts, IndentLine)
      ensures exists k :: 0 <= k < |parts| && Strip(parts[k]) != [] && l == "  " + parts[k]
    {
      var k :| 0 <= k < |parts| && IndentLine(parts[k]) == Some(l);
      assert Strip(parts[k]) != [] && l == "  " + parts[k];
    }
  }

  /** Every line a free-text field contributes is a non-blank line of it, indented. */
  lemma IndentedSound(text: string)
    ensures forall l :: l in Indented(text) ==>
      exists k :: 0 <= k < |LinesOf(text)| && Strip(LinesOf(text)[k]) != [] && l == "  " + LinesOf(text)[k]
  {
    if text != [] {
      var parts := LinesOf(text);
      IndentedLinesSound(parts);
      assert Indented(text) == Collect(parts, IndentLine);
    }
  }

  /** Every non-blank line of a non-empty free-text field reaches the mail, indented. */
  lemma IndentedComplete(text: string)
    requires text != []
    ensures forall k :: 0 <= k < |LinesOf(text)| && Strip(LinesOf(text)[k]) != [] ==>
      "  " + LinesOf(text)[k] in Indented(text)
  {
    CollectComplete(LinesOf(text), IndentLine);
  }

  // ---------------------------------------------------------------------
  // Carriers and their address fields
  // ---------------------------------------------------------------------

  /** A row of the carrier table. */
  datatype Carrier = Carrier(name: string, email: string, notes: string)

  /** The address field with `;` and `:` turned into `,`. */
  function Normalized(field: string): string {
    ReplaceChar(ReplaceChar(field, ';', ','), ':', ',')
  }

  /** The stripped pieces between commas of the normalized field. */
  function Pieces(field: string): seq<string> {
    var parts := Split(Normalized(field), ',');
    seq(|parts|, k requires 0 <= k < |parts| => Strip(parts[k]))
  }

  predicate NonBlank(t: string) { t != [] }

  /** The addresses listed in a carrier's address field, in order; none for an empty field. */
  function Addresses(field: string): (r: seq<string>)
    ensures field == [] ==> r == []
    ensures forall a :: a in r ==> a != [] && a in Pieces(field)
  {
    if field == [] then [] else Filter(Pieces(field), NonBlank)
  }

  /** Every listed address is non-empty, stripped and free of the three separators. */
  lemma AddressesClean(field: string)
    ensures forall a :: a in Addresses(field) ==>
      a != [] && Strip(a) == a && ',' !in a && ';' !in a && ':' !in a
  {
    if field != [] {
      var n := Normalized(field);
      var parts := Split(n, ',');
      assert ';' !in n && ':' !in n;
      JoinSplit(n, ',');
      forall a | a in Addresses(field)
        ensures a != [] && Strip(a) == a && ',' !in a && ';' !in a && ':' !in a
      {
        var k :| 0 <= k < |parts| && Pieces(field)[k] == a;
        assert a == Strip(parts[k]);
        StripIdempotent(parts[k]);
        JoinChars(parts, ',', ';');
        JoinChars(parts, ',', ':');
        StripOmits(parts[k], ',');
        StripOmits(parts[k], ';');
        StripOmits(parts[k], ':');
      }
    }
  }

  /** A field without `;` or `:` is unchanged by normalizing. */
  lemma NormalizedIdentity(field: string)
    requires ';' !in field && ':' !in field
    ensures Normalized(field) == field
  {
    assert ReplaceChar(field, ';', ',') == field;
  }

  /** Addresses written out with commas between them are listed again as they were. */
  lemma AddressesJoin(xs: seq<string>)
    requires |xs| >= 1
    requires forall k :: 0 <= k < |xs| ==>
      xs[k] != [] && Strip(xs[k]) == xs[k] && ',' !in xs[k] && ';' !in xs[k] && ':' !in xs[k]
    ensures Addresses(Join(xs, ',')) == xs
  {
    var s := Join(xs, ',');
    assert s != [] by {
      if |xs| > 1 {
        assert s == xs[0] + [','] + Join(xs[1..], ',');
      }
    }
    JoinChars(xs, ',', ';');
    JoinChars(xs, ',', ':');
    NormalizedIdentity(s);
    SplitJoin(xs, ',');
    assert Pieces(s) == xs;
    FilterAll(xs, NonBlank);
  }

  predicate HasAt(a: string) { '@' in a }

  predicate LacksAt(a: string) { '@' !in a }

  /** The addresses of some carriers that pass `p`, carrier by carrier. */
  function AddressesWhere(carriers: seq<Carrier>, p: string -> bool): (r: seq<string>)
    ensures forall a :: a in r ==> p(a) && a != []
    decreases |carriers|
  {
    if |carriers| == 0 then []
    else AddressesWhere(carriers[..|carriers| - 1], p) + Filter(Addresses(carriers[|carriers| - 1].email), p)
  }

  /** An address is gathered exactly when some carrier lists it and it passes. */
  lemma {:induction false} AddressesWhereMembers(carriers: seq<Carrier>, p: string -> bool)
    ensures forall a :: a in AddressesWhere(carriers, p) <==>
      p(a) && exists k :: 0 <= k < |carriers| && a in Addresses(carriers[k].email)
    decreases |carriers|
  {
    hide Addresses, Pieces;
    if |carriers| > 0 {
      var init := carriers[..|carriers| - 1];
      AddressesWhereMembers(init, p);
      forall a | p(a) && (exists k :: 0 <= k < |carriers| && a in Addresses(carriers[k].email))
        ensures a in AddressesWhere(carriers, p)
      {
        var k :| 0 <= k < |carriers| && a in Addresses(carriers[k].email);
        if k < |init| {
          assert init[k] == carriers[k];
        }
      }
      forall a | a in AddressesWhere(carriers, p)
        ensures exists k :: 0 <= k < |carriers| && a in Addresses(carriers[k].email)
      {
        if a in AddressesWhere(init, p) {
          var k :| 0 <= k < |init| && a in Addresses(init[k].email);
          assert carriers[k] == init[k];
        } else {
          assert a in Addresses(carriers[|carriers| - 1].email);
        }
      }
    }
  }

  lemma AddressesWhereSnoc(carriers: seq<Carrier>, c: Carrier, p: string -> bool)
    ensures AddressesWhere(carriers + [c], p) == AddressesWhere(carriers, p) + Filter(Addresses(c.email), p)
  {
    assert (carriers + [c])[..|carriers|] == carriers;
  }

  // ---------------------------------------------------------------------
  // Sending the request
  // ---------------------------------------------------------------------

  /** How many of the first `n` send attempts succeed; attempt a succeeds when `sends` says so. */
  function SuccessCount(sends: seq<bool>, n: nat): (r: nat)
    ensures r <= n
  {
    if n == 0 then 0
    else SuccessCount(sends, n - 1) + (if n - 1 < |sends| && sends[n - 1] then 1 else 0)
  }

  /** Every attempt counts when every attempt succeeds, and none when none does. */
  lemma {:induction false} SuccessCountExtremes(sends: seq<bool>, n: nat)
    ensures (n <= |sends| && forall a :: 0 <= a < n ==> sends[a]) ==> SuccessCount(sends, n) == n
    ensures (forall a :: 0 <= a < n && a < |sends| ==> !sends[a]) ==> SuccessCount(sends, n) == 0
  {
    if n > 0 {
      SuccessCountExtremes(sends, n - 1);
    }
  }

  /** Some attempt counts exactly when some attempt succeeded. */
  lemma {:induction false} SuccessCountPositive(sends: seq<bool>, n: nat)
    ensures SuccessCount(sends, n) > 0 <==> exists a :: 0 <= a < n && a < |sends| && sends[a]
  {
    if n > 0 {
      SuccessCountPositive(sends, n - 1);
      if SuccessCount(sends, n - 1) == 0 && n - 1 < |sends| && sends[n - 1] {
        assert SuccessCount(sends, n) > 0;
      }
    }
  }

  /**
   * The addresses of one carrier: each containing `@` is sent to (attempt
   * number `before` onwards, counting successes), each other one is warned about.
   */
  method SendToCarrier(addresses: seq<string>, sends: seq<bool>, before: nat, succeeded: nat)
    returns (sent: seq<string>, warned: seq<string>, successes: nat)
    requires succeeded == SuccessCount(sends, before)
    ensures sent == Filter(addresses, HasAt)
    ensures warned == Filter(addresses, LacksAt)
    ensures successes == SuccessCount(sends, before + |sent|)
  {
    hide Filter;
    sent, warned, successes := [], [], succeeded;
    var j := 0;
    while j < |addresses|
      invariant 0 <= j <= |addresses|
      invariant sent == Filter(addresses[..j], HasAt)
      invariant warned == Filter(addresses[..j], LacksAt)
      invariant successes == SuccessCount(sends, before + |sent|)
    {
      var email := addresses[j];
      assert addresses[..j + 1] == addresses[..j] + [email];
      FilterSnoc(addresses[..j], email, HasAt);
      FilterSnoc(addresses[..j], email, LacksAt);
      if '@' in email {
        var attempt := before + |sent|;
        if attempt < |sends| && sends[attempt] {
          successes := successes + 1;
        }
        sent := sent + [email];
      } else {
        warned := warned + [email];
      }
      j := j + 1;
    }
    assert addresses[..j] == addresses;
  }

  /**
   * The send pass over all carriers: the addresses sent to, in order, the
   * ones only warned about, and how many sends succeeded.
   */
  method NotifyCarriers(carriers: seq<Carrier>, sends: seq<bool>)
    returns (sent: seq<string>, warned: seq<string>, successes: nat)
    ensures sent == AddressesWhere(carriers, HasAt)
    ensures warned == AddressesWhere(carriers, LacksAt)
    ensures successes == SuccessCount(sends, |sent|)
  {
    hide Addresses, Filter, SuccessCount;
    sent, warned, successes := [], [], 0;
    var i := 0;
    while i < |carriers|
      invariant 0 <= i <= |carriers|
      invariant sent == AddressesWhere(carriers[..i], HasAt)
      invariant warned == AddressesWhere(carriers[..i], LacksAt)
      invariant successes == SuccessCount(sends, |sent|)
    {
      var carrier := carriers[i];
      assert carriers[..i + 1] == carriers[..i] + [carrier];
      AddressesWhereSnoc(carriers[..i], carrier, HasAt);
      AddressesWhereSnoc(carriers[..i], carrier, LacksAt);
      var s, w, n := SendToCarrier(Addresses(carrier.email), sends, |sent|, successes);
      sent, warned, successes := sent + s, warned + w, n;
      i := i + 1;
    }
    assert carriers[..i] == carriers;
  }

  /** Every address sent to contains `@` and was listed by some carrier; no other address is sent to. */
  lemma SentExactly(carriers: seq<Carrier>, a: string)
    ensures a in AddressesWhere(carriers, HasAt) <==>
      '@' in a && exists k :: 0 <= k < |carriers| && a in Addresses(carriers[k].email)
  {
    AddressesWhereMembers(carriers, HasAt);
  }

  // ---------------------------------------------------------------------
  // Attachments
  // ---------------------------------------------------------------------

  /** An uploaded file, by name and size in bytes. */
  datatype Upload = Upload(name: string, size: nat)

  /** 15 MiB: the limit for one file and, as a warning only, for all of them. */
  const UploadLimit: nat := 15 * 1024 * 1024

  predicate Fits(f: Upload) { f.size <= UploadLimit }

  predicate TooLarge(f: Upload) { f.size > UploadLimit }

  function SizeSum(files: seq<Upload>): nat
    decreases |files|
  {
    if |files| == 0 then 0 else SizeSum(files[..|files| - 1]) + files[|files| - 1].size
  }

  lemma SizeSumSnoc(files: seq<Upload>, f: Upload)
    ensures SizeSum(files + [f]) == SizeSum(files) + f.size
  {
    assert (files + [f])[..|files|] == files;
  }

  /**
   * The upload filter: files over the limit are dropped with a warning, the
   * others kept in order; a total over the limit raises only an error flag.
   */
  method FilterUploads(files: seq<Upload>) returns (valid: seq<Upload>, dropped: seq<Upload>, total: nat, overTotal: bool)
    ensures valid == Filter(files, Fits)
    ensures dropped == Filter(files, TooLarge)
    ensures total == SizeSum(valid)
    ensures overTotal <==> total > UploadLimit
  {
    hide Filter;
    valid, dropped, total := [], [], 0;
    var i := 0;
    while i < |files|
      invariant 0 <= i <= |files|
      invariant valid == Filter(files[..i], Fits)
      invariant dropped == Filter(files[..i], TooLarge)
      invariant total == SizeSum(valid)
    {
      var file := files[i];
      assert files[..i + 1] == files[..i] + [file];
      FilterSnoc(files[..i], file, Fits);
      FilterSnoc(files[..i], file, TooLarge);
      if file.size > 15 * 1024 * 1024 {
        dropped := dropped + [file];
      } else {
        SizeSumSnoc(valid, file);
        total := total + file.size;
        valid := valid + [file];
      }
      i := i + 1;
    }
    assert files[..i] == files;
    overTotal := total > 15 * 1024 * 1024;
  }

  /** Two 10 MiB files: both are kept although together they exceed the limit. */
  lemma OverTotalDropsNothing()
    ensures var files := [Upload("a.pdf", 10 * 1024 * 1024), Upload("b.pdf", 10 * 1024 * 1024)];
      Filter(files, Fits) == files && SizeSum(Filter(files, Fits)) > UploadLimit
  {
    var files := [Upload("a.pdf", 10 * 1024 * 1024), Upload("b.pdf", 10 * 1024 * 1024)];
    FilterAll(files, Fits);
    assert files[..1][..0] == [];
  }

  // ---------------------------------------------------------------------
  // The carrier table check
  // ---------------------------------------------------------------------

  /** A row is rejected when its name or address is empty or the address has no `@`. */
  predicate RowInvalid(c: Carrier) {
    c.name == [] || c.email == [] || '@' !in c.email
  }

  /** The 1-based numbers of the rejected rows, in order. */
  function InvalidRows(rows: seq<Carrier>): (r: seq<nat>)
    ensures |r| <= |rows|
    ensures forall k :: 0 <= k < |r| ==> 1 <= r[k] <= |rows| && RowInvalid(rows[r[k] - 1])
    decreases |rows|
  {
    if |rows| == 0 then []
    else InvalidRows(rows[..|rows| - 1]) + (if RowInvalid(rows[|rows| - 1]) then [|rows|] else [])
  }

  /** A number is listed exactly when its row is rejected, and the numbers ascend. */
  lemma {:induction false} InvalidRowsExact(rows: seq<Carrier>)
    ensures forall n :: n in InvalidRows(rows) <==> 1 <= n <= |rows| && RowInvalid(rows[n - 1])
    ensures forall a, b :: 0 <= a < b < |InvalidRows(rows)| ==> InvalidRows(rows)[a] < InvalidRows(rows)[b]
    decreases |rows|
  {
    if |rows| > 0 {
      var init := rows[..|rows| - 1];
      var r, before := InvalidRows(rows), InvalidRows(init);
      InvalidRowsExact(init);
      assert r == before + (if RowInvalid(rows[|rows| - 1]) then [|rows|] else []);
      forall n
        ensures n in r <==> 1 <= n <= |rows| && RowInvalid(rows[n - 1])
      {
        if 1 <= n <= |init| {
          assert rows[n - 1] == init[n - 1];
        }
      }
      forall a, b | 0 <= a < b < |r|
        ensures r[a] < r[b]
      {
        if b >= |before| {
          assert before[a] in before;
        }
      }
    }
  }

  /** No number is listed exactly when every row passes. */
  lemma NoInvalidRows(rows: seq<Carrier>)
    ensures InvalidRows(rows) == [] <==> forall k :: 0 <= k < |rows| ==> !RowInvalid(rows[k])
  {
    InvalidRowsExact(rows);
    var r := InvalidRows(rows);
    if r != [] {
      assert r[0] in r;
    }
    if exists k :: 0 <= k < |rows| && RowInvalid(rows[k]) {
      var k :| 0 <= k < |rows| && RowInvalid(rows[k]);
      assert k + 1 in r;
    }
  }

  /** The check on saving the table: the rejected row numbers, and whether the table is saved. */
  method CheckCarrierRows(rows: seq<Carrier>) returns (invalid: seq<nat>, save: bool)
    ensures invalid == InvalidRows(rows)
    ensures save <==> forall k :: 0 <= k < |rows| ==> !RowInvalid(rows[k])
  {
    invalid := [];
    var idx := 0;
    while idx < |rows|
      invariant 0 <= idx <= |rows|
      invariant invalid == InvalidRows(rows[..idx])
    {
      var row := rows[idx];
      assert rows[..idx + 1][..idx] == rows[..idx];
      if row.name == [] || row.email == [] || '@' !in row.email {
        invalid := invalid + [idx + 1];
      }
      idx := idx + 1;
    }
    assert rows[..idx] == rows;
    NoInvalidRows(rows);
    save := invalid == [];
  }

  /** A carrier row the check accepts lists at least one address that is sent to. */
  lemma AcceptedRowIsSentTo(c: Carrier)
    requires !RowInvalid(c)
    ensures exists a :: a in Addresses(c.email) && '@' in a
  {
    var n := Normalized(c.email);
    var i :| 0 <= i < |c.email| && c.email[i] == '@';
    assert n[i] == '@';
    var parts := Split(n, ',');
    JoinSplit(n, ',');
    JoinChars(parts, ',', '@');
    var k :| 0 <= k < |parts| && '@' in parts[k];
    assert !IsSpace('@');
    StripKeeps(parts[k], '@');
    var a := Pieces(c.email)[k];
    assert a == Strip(parts[k]) && a != [];
    assert a in Pieces(c.email);
  }
}
