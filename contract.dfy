/**
 * Preparing a contract for a chosen offer: the offer and request the grid
 * row selects, the carrier's profile from the carrier workbook, the
 * template context with its three cost fields, and the contract log entry.
 */
module Contract {
  import opened Wrappers
  import opened Text
  import opened Offers
  import opened Folds
  import opened Reconcile

  // ---------------------------------------------------------------------
  // Selection
  // ---------------------------------------------------------------------

  /** The first stored offer whose request id and sender equal the chosen grid row's cells. */
  function SelectOffer(offers: seq<Offer>, row: GridRow): (r: Option<Offer>)
    ensures r.None? <==> forall k :: 0 <= k < |offers| ==> KeyOf(offers[k]) != RowKey(row)
    ensures r.Some? ==> exists i :: 0 <= i < |offers| && offers[i] == r.value && KeyOf(r.value) == RowKey(row) &&
                                  forall k :: 0 <= k < i ==> KeyOf(offers[k]) != RowKey(row)
  {
    match FirstIndex(offers, o => KeyOf(o) == RowKey(row))
    case None => None
    case Some(i) => Some(offers[i])
  }

  /** The first stored request with the offer's request id. */
  function SelectBid(bids: seq<Bid>, id: string): (r: Option<Bid>)
    ensures r.None? <==> forall k :: 0 <= k < |bids| ==> bids[k].id != id
    ensures r.Some? ==> exists i :: 0 <= i < |bids| && bids[i] == r.value && r.value.id == id &&
                                  forall k :: 0 <= k < i ==> bids[k].id != id
  {
    match FirstIndex(bids, (b: Bid) => b.id == id)
    case None => None
    case Some(i) => Some(bids[i])
  }

  /** A grid row whose carrier cell was cut short selects no offer of that carrier. */
  lemma LongSenderNotSelectable(offers: seq<Offer>, row: GridRow, k: nat)
    requires |row.sender| <= 20 && k < |offers| && |offers[k].sender| > 20
    ensures SelectOffer(offers, row) != Some(offers[k])
  {
  }

  // ---------------------------------------------------------------------
  // Carrier profile
  // ---------------------------------------------------------------------

  /** A row of the carrier workbook: column name to cell text. */
  type Profile = map<string, string>

  predicate Named(row: Profile, name: string) {
    "name" in row && row["name"] == name
  }

  /**
   * The carrier's profile: the first workbook row whose name is exactly
   * `name`; empty when no row has it, and when the workbook is missing or
   * cannot be read (None).
   */
  function CarrierInfo(workbook: Option<seq<Profile>>, name: string): (r: Profile)
    ensures r == map[] || (workbook.Some? && r in workbook.value && Named(r, name))
    ensures workbook.None? ==> r == map[]
    ensures workbook.Some? && (forall k :: 0 <= k < |workbook.value| ==> !Named(workbook.value[k], name)) ==> r == map[]
    ensures workbook.Some? ==> forall i :: (0 <= i < |workbook.value| && Named(workbook.value[i], name) &&
              (forall k :: 0 <= k < i ==> !Named(workbook.value[k], name))) ==> r == workbook.value[i]
  {
    match workbook
    case None => map[]
    case Some(rows) =>
      match FirstIndex(rows, row => Named(row, name))
      case None => map[]
      case Some(i) => rows[i]
  }

  /** `d.get(key, '')` on a profile. */
  function Cell(p: Profile, key: string): string {
    if key in p then p[key] else ""
  }

  // ---------------------------------------------------------------------
  // Template context
  // ---------------------------------------------------------------------

  /** A cost field of the template: amount and currency. */
  datatype CostField = CostField(cost: real, currency: string)

  /** The value every cost field starts from. */
  const NoCost := CostField(0.0, "")

  datatype Context = Context(
    id: string,
    dateCreated: string,
    carrierName: string,
    carrierEmail: string,
    countryFrom: string,
    loadingAddress: string,
    cargoType: string,
    cargoDescription: string,
    containerType: string,
    hsCode: string,
    incoterm: string,
    readyDate: string,
    paymentTerms: string,
    notes: string,
    preCarriage: CostField,
    othc: CostField,
    seaFreight: CostField,
    name: string,
    email: string,
    legalName: string,
    inn: string,
    kpp: string,
    ogrn: string,
    address: string,
    bankName: string,
    bik: string,
    rs: string,
    ks: string,
    contractNumber: string,
    contractDate: string)

  /** The carrier email the template receives: the profile's, else the address the offer came from. */
  function CarrierEmail(profile: Profile, offer: Offer): (r: string)
    ensures "email" in profile ==> r == profile["email"]
    ensures "email" !in profile ==> r == offer.senderEmail
  {
    if "email" in profile then profile["email"] else offer.senderEmail
  }

  /** The context carries the request's details field for field. */
  predicate CopiesDetails(c: Context, d: BidDetails) {
    c.countryFrom == d.countryFrom && c.loadingAddress == d.loadingAddress && c.cargoType == d.cargoType
    && c.cargoDescription == d.cargoDescription && c.containerType == d.containerType && c.hsCode == d.hsCode
    && c.incoterm == d.incoterm && c.readyDate == d.readyDate && c.paymentTerms == d.paymentTerms
    && c.notes == d.notes
  }

  /** The context carries the profile's thirteen cells, "" for a cell the profile lacks. */
  predicate CopiesProfile(c: Context, profile: Profile) {
    c.name == Cell(profile, "name") && c.email == Cell(profile, "email")
    && c.legalName == Cell(profile, "legal_name") && c.inn == Cell(profile, "inn")
    && c.kpp == Cell(profile, "kpp") && c.ogrn == Cell(profile, "ogrn")
    && c.address == Cell(profile, "address") && c.bankName == Cell(profile, "bank_name")
    && c.bik == Cell(profile, "bik") && c.rs == Cell(profile, "rs") && c.ks == Cell(profile, "ks")
    && c.contractNumber == Cell(profile, "contract_number") && c.contractDate == Cell(profile, "contract_date")
  }

  /** The context before the cost lines are read; `today` is the date of generation as the template prints it. */
  function BaseContext(bid: Bid, offer: Offer, profile: Profile, today: string): (c: Context)
    ensures c.id == bid.id && c.carrierName == offer.sender && c.dateCreated == today
    ensures c.carrierEmail == CarrierEmail(profile, offer)
    ensures CopiesDetails(c, bid.details) && CopiesProfile(c, profile)
    ensures c.preCarriage == NoCost && c.othc == NoCost && c.seaFreight == NoCost
  {
    var d := bid.details;
    Context(
      bid.id, today, offer.sender, CarrierEmail(profile, offer),
      d.countryFrom, d.loadingAddress, d.cargoType, d.cargoDescription, d.containerType,
      d.hsCode, d.incoterm, d.readyDate, d.paymentTerms, d.notes,
      NoCost, NoCost, NoCost,
      Cell(profile, "name"), Cell(profile, "email"), Cell(profile, "legal_name"), Cell(profile, "inn"),
      Cell(profile, "kpp"), Cell(profile, "ogrn"), Cell(profile, "address"), Cell(profile, "bank_name"),
      Cell(profile, "bik"), Cell(profile, "rs"), Cell(profile, "ks"), Cell(profile, "contract_number"),
      Cell(profile, "contract_date"))
  }

  /** The three cost fields of the template. */
  datatype Slot = PreCarriage | Othc | SeaFreight

  /** The text an item name must contain to fill the field. */
  function SlotLabel(slot: Slot): string {
    match slot
    case PreCarriage => "Pre-carriage"
    case Othc => "OTHC"
    case SeaFreight => "Sea freight"
  }

  /** The field a cost line fills, tested in this order: "Pre-carriage", then "OTHC", then "Sea freight". */
  function SlotOf(item: string): (r: Option<Slot>)
    ensures r.None? <==> forall slot: Slot :: !Contains(item, SlotLabel(slot))
    ensures r.Some? ==> Contains(item, SlotLabel(r.value))
    ensures r != Some(SeaFreight) && r != Some(Othc) <== Contains(item, "Pre-carriage")
    ensures r != Some(SeaFreight) <== Contains(item, "OTHC")
  {
    assert SlotLabel(PreCarriage) == "Pre-carriage" && SlotLabel(Othc) == "OTHC" && SlotLabel(SeaFreight) == "Sea freight";
    if Contains(item, "Pre-carriage") then Some(PreCarriage)
    else if Contains(item, "OTHC") then Some(Othc)
    else if Contains(item, "Sea freight") then Some(SeaFreight)
    else None
  }

  /** The item name of a cost line, "" when it has none. */
  function ItemName(c: CostLine): string { c.item.GetOr("") }

  /** What a cost line writes into its field: a missing amount is 0, a missing currency "USD". */
  function FieldOf(c: CostLine): (f: CostField)
    ensures f.currency == (if c.currency.Some? then c.currency.value else "USD")
    ensures f.cost == (if c.cost.Some? then c.cost.value else 0.0)
  {
    CostField(c.cost.GetOr(0.0), c.currency.GetOr("USD"))
  }

  /** The value of one field after the cost lines are read, from `init`: each line for it overwrites the last. */
  function Filled(costs: seq<CostLine>, slot: Slot, init: CostField): (r: CostField)
    ensures r == init || exists i :: 0 <= i < |costs| && SlotOf(ItemName(costs[i])) == Some(slot) && r == FieldOf(costs[i])
    decreases |costs|
  {
    if |costs| == 0 then init
    else
      var last := costs[|costs| - 1];
      if SlotOf(ItemName(last)) == Some(slot) then FieldOf(last) else Filled(costs[..|costs| - 1], slot, init)
  }

  /** A field holds what the last cost line for it wrote. */
  lemma {:induction false} FilledIsLastMatch(costs: seq<CostLine>, slot: Slot, init: CostField, i: nat)
    requires i < |costs| && SlotOf(ItemName(costs[i])) == Some(slot)
    requires forall j :: i < j < |costs| ==> SlotOf(ItemName(costs[j])) != Some(slot)
    ensures Filled(costs, slot, init) == FieldOf(costs[i])
    decreases |costs|
  {
    if i < |costs| - 1 {
      var init' := costs[..|costs| - 1];
      forall j | i < j < |init'|
        ensures SlotOf(ItemName(init'[j])) != Some(slot)
      {
        assert init'[j] == costs[j];
      }
      FilledIsLastMatch(init', slot, init, i);
    }
  }

  /** A field no cost line is for keeps its starting value. */
  lemma {:induction false} FilledUntouched(costs: seq<CostLine>, slot: Slot, init: CostField)
    requires forall j :: 0 <= j < |costs| ==> SlotOf(ItemName(costs[j])) != Some(slot)
    ensures Filled(costs, slot, init) == init
    decreases |costs|
  {
    if |costs| > 0 {
      var init' := costs[..|costs| - 1];
      forall j | 0 <= j < |init'|
        ensures SlotOf(ItemName(init'[j])) != Some(slot)
      {
        assert init'[j] == costs[j];
      }
      FilledUntouched(init', slot, init);
    }
  }

  /** One more cost line: it overwrites the field it is for and leaves the others. */
  lemma FilledSnoc(costs: seq<CostLine>, i: nat, slot: Slot, init: CostField)
    requires i < |costs|
    ensures Filled(costs[..i + 1], slot, init) ==
      (if SlotOf(ItemName(costs[i])) == Some(slot) then FieldOf(costs[i]) else Filled(costs[..i], slot, init))
  {
    assert costs[..i + 1][..i] == costs[..i];
  }

  /** A line whose item names pre-carriage never reaches the OTHC or sea-freight field, whatever else it names. */
  lemma PreCarriageShadows(costs: seq<CostLine>, c: CostLine, init: CostField)
    requires Contains(ItemName(c), "Pre-carriage")
    ensures Filled(costs + [c], Othc, init) == Filled(costs, Othc, init)
    ensures Filled(costs + [c], SeaFreight, init) == Filled(costs, SeaFreight, init)
    ensures Filled(costs + [c], PreCarriage, init) == FieldOf(c)
  {
    assert (costs + [c])[..|costs|] == costs;
  }

  /** The template context of `generate_contract`, up to rendering. */
  function ContextFor(bid: Bid, offer: Offer, workbook: Option<seq<Profile>>, today: string): (c: Context)
    ensures c.id == bid.id && c.carrierName == offer.sender && c.dateCreated == today
    ensures c.carrierEmail == CarrierEmail(CarrierInfo(workbook, offer.sender), offer)
    ensures c.preCarriage == Filled(offer.costs, PreCarriage, NoCost)
    ensures c.othc == Filled(offer.costs, Othc, NoCost)
    ensures c.seaFreight == Filled(offer.costs, SeaFreight, NoCost)
    ensures CopiesDetails(c, bid.details) && CopiesProfile(c, CarrierInfo(workbook, offer.sender))
  {
    var base := BaseContext(bid, offer, CarrierInfo(workbook, offer.sender), today);
    base.(preCarriage := Filled(offer.costs, PreCarriage, NoCost),
          othc := Filled(offer.costs, Othc, NoCost),
          seaFreight := Filled(offer.costs, SeaFreight, NoCost))
  }

  /** An offer without a line for a field leaves it at 0 and "". */
  lemma ContextDefaults(bid: Bid, offer: Offer, workbook: Option<seq<Profile>>, today: string, slot: Slot)
    requires forall j :: 0 <= j < |offer.costs| ==> SlotOf(ItemName(offer.costs[j])) != Some(slot)
    ensures var c := ContextFor(bid, offer, workbook, today);
            (match slot case PreCarriage => c.preCarriage case Othc => c.othc case SeaFreight => c.seaFreight) == NoCost
  {
    FilledUntouched(offer.costs, slot, NoCost);
  }

  /**
   * `generate_contract` up to rendering: look up the carrier's profile, fill
   * the context, then overwrite the cost fields line by line.
   */
  method BuildContext(bid: Bid, offer: Offer, workbook: Option<seq<Profile>>, today: string) returns (c: Context)
    ensures c == ContextFor(bid, offer, workbook, today)
  {
    var profile := CarrierInfo(workbook, offer.sender);
    ghost var base := BaseContext(bid, offer, profile, today);
    c := BaseContext(bid, offer, profile, today);
    var costs := offer.costs;
    var i := 0;
    while i < |costs|
      invariant 0 <= i <= |costs|
      invariant c.preCarriage == Filled(costs[..i], PreCarriage, NoCost)
      invariant c.othc == Filled(costs[..i], Othc, NoCost)
      invariant c.seaFreight == Filled(costs[..i], SeaFreight, NoCost)
      invariant c.(preCarriage := NoCost, othc := NoCost, seaFreight := NoCost) == base
    {
      var cost := costs[i];
      var itemName := cost.item.GetOr("");
      FilledSnoc(costs, i, PreCarriage, NoCost);
      FilledSnoc(costs, i, Othc, NoCost);
      FilledSnoc(costs, i, SeaFreight, NoCost);
      if Contains(itemName, "Pre-carriage") {
        c := c.(preCarriage := CostField(cost.cost.GetOr(0.0), cost.currency.GetOr("USD")));
      } else if Contains(itemName, "OTHC") {
        c := c.(othc := CostField(cost.cost.GetOr(0.0), cost.currency.GetOr("USD")));
      } else if Contains(itemName, "Sea freight") {
        c := c.(seaFreight := CostField(cost.cost.GetOr(0.0), cost.currency.GetOr("USD")));
      }
      i := i + 1;
    }
    assert costs[..|costs|] == costs;
  }

  // ---------------------------------------------------------------------
  // Contract log
  // ---------------------------------------------------------------------

  /** The separators of a Windows path. */
  predicate IsPathSep(c: char) { c == '\\' || c == '/' }

  /** `os.path.basename`: what follows the last separator. */
  function Basename(path: string): (r: string)
    ensures forall k :: 0 <= k < |r| ==> !IsPathSep(r[k])
    ensures |r| <= |path| && r == path[|path| - |r|..]
    ensures (forall k :: 0 <= k < |path| ==> !IsPathSep(path[k])) ==> r == path
    ensures |r| == |path| || IsPathSep(path[|path| - |r| - 1])
    decreases |path|
  {
    if |path| == 0 then []
    else if IsPathSep(path[|path| - 1]) then []
    else Basename(path[..|path| - 1]) + [path[|path| - 1]]
  }

  /** The file name a contract is saved under. */
  function ContractFileName(bidId: string, sender: string): string {
    "contract_" + bidId + "_" + sender + ".docx"
  }

  /** The path the log records: the copy in the contracts folder. */
  function StoredPath(bidId: string, sender: string): string {
    "contracts\\" + Basename(ContractFileName(bidId, sender))
  }

  predicate NoSep(s: string) {
    forall k :: 0 <= k < |s| ==> !IsPathSep(s[k])
  }

  lemma NoSepConcat(a: string, b: string)
    requires NoSep(a) && NoSep(b)
    ensures NoSep(a + b)
  {
    forall k | 0 <= k < |a + b|
      ensures !IsPathSep((a + b)[k])
    {
      if k >= |a| { assert (a + b)[k] == b[k - |a|]; }
    }
  }

  /** With no separator in the request id or the sender, the stored path names the file in full. */
  lemma StoredPathPlain(bidId: string, sender: string)
    requires NoSep(bidId) && NoSep(sender)
    ensures StoredPath(bidId, sender) == "contracts\\" + ContractFileName(bidId, sender)
  {
    var head := "contract_";
    var under := "_";
    var ext := ".docx";
    assert NoSep(head) && NoSep(under) && NoSep(ext);
    NoSepConcat(head, bidId);
    NoSepConcat(head + bidId, under);
    NoSepConcat(head + bidId + under, sender);
    NoSepConcat(head + bidId + under + sender, ext);
    assert ContractFileName(bidId, sender) == head + bidId + under + sender + ext;
  }

  datatype LogEntry = LogEntry(bidId: string, offerId: string, carrier: string, date: string,
                               filePath: string, status: string)

  /** The log entry of a generated contract; `now` is the moment of generation as text. */
  function EntryFor(bid: Bid, offer: Offer, now: string): (e: LogEntry)
    ensures e.bidId == bid.id && e.offerId == offer.bidId && e.carrier == offer.sender && e.date == now
    ensures e.status == "generated"
    ensures e.filePath == StoredPath(bid.id, offer.sender)
  {
    LogEntry(bid.id, offer.bidId, offer.sender, now, StoredPath(bid.id, offer.sender), "generated")
  }

  /** The stored list of generated contracts. */
  class ContractLog {
    var entries: seq<LogEntry>

    constructor (entries: seq<LogEntry>)
      ensures this.entries == entries
    {
      this.entries := entries;
    }

    /** Record a generated contract at the end of the log. */
    method Record(bid: Bid, offer: Offer, now: string)
      modifies this
      ensures entries == old(entries) + [EntryFor(bid, offer, now)]
    {
      entries := entries + [LogEntry(bid.id, offer.bidId, offer.sender, now, StoredPath(bid.id, offer.sender), "generated")];
    }
  }
}
