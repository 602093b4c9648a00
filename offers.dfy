/**
 * The records the engine works on: shipment requests (bids), carrier offers,
 * their cost lines, and the fixed catalogue of cost categories.
 */
module Offers {
  import opened Wrappers
  import opened Text

  /** Offer status, as the status column offers it: Новое, В работе, Отклонено, Принято. */
  datatype Status = New | InProgress | Rejected | Accepted

  /** The statuses whose arrival the carrier is told about. */
  predicate IsTerminal(st: Status) { st == Rejected || st == Accepted }

  /**
   * `last_status_change` of an offer: absent (or empty), a text that
   * `datetime.fromisoformat` rejects, or a moment, in seconds on a fixed clock.
   */
  datatype Stamp = NoStamp | Unreadable | At(seconds: real)

  /** A stored cost line; a record read back from storage may lack any of its keys. */
  datatype CostLine = CostLine(item: Option<string>, cost: Option<real>, currency: Option<string>)

  /** A carrier's reply, as the parser builds it and storage keeps it. */
  datatype Offer = Offer(
    sender: string,
    senderEmail: string,
    emailDate: string,
    subject: string,
    bidId: string,
    orderNumber: string,
    rate: string,
    currency: string,
    conditions: string,
    status: Status,
    costs: seq<CostLine>,
    lastStatusChange: Stamp)

  /** The (bid_id, sender) pair that stands for an offer's identity. */
  datatype Key = Key(bidId: string, sender: string)

  function KeyOf(o: Offer): Key { Key(o.bidId, o.sender) }

  /** A cost line of a shipment request. */
  datatype BidCost = BidCost(item: string, cost: real, currency: string)

  datatype BidDetails = BidDetails(
    countryFrom: string,
    incoterm: string,
    portFrom: string,
    readyDate: string,
    containerType: string,
    cargoType: string,
    cargoDescription: string,
    deliveryMethod: string,
    hsCode: string,
    loadingAddress: string,
    paymentTerms: string,
    notes: string)

  /** A shipment request; `orderNumber` is None for a stored request without that key. */
  datatype Bid = Bid(
    id: string,
    orderNumber: Option<string>,
    dateCreated: string,
    status: string,
    details: BidDetails,
    costs: seq<BidCost>)

  /** The cost categories, in the order every form, mail and parser uses. */
  const Catalogue: seq<string> := [
    "Pre-carriage",
    "OTHC (Origin Terminal Handling Charges)",
    "Sea freight",
    "ЖД перевозка",
    "Прямое ЖД",
    "Станционные затраты",
    "Доставка со станции"
  ]

  /** No two catalogue names begin with the same character. */
  lemma CatalogueFirstCharInjective(a: nat, b: nat)
    requires a < |Catalogue| && b < |Catalogue|
    requires |Catalogue[a]| > 0 && |Catalogue[b]| > 0 && Catalogue[a][0] == Catalogue[b][0]
    ensures a == b
  {
  }

  lemma StartsWithHead(line: string, p: string)
    requires StartsWith(line, p) && |p| > 0
    ensures |line| > 0 && line[0] == p[0]
  {
    assert line[..|p|][0] == line[0];
  }

  /** So a line starts with at most one catalogue name. */
  lemma AtMostOneItemPrefix(line: string, a: nat, b: nat)
    requires a < |Catalogue| && b < |Catalogue|
    requires StartsWith(line, Catalogue[a]) && StartsWith(line, Catalogue[b])
    ensures a == b
  {
    StartsWithHead(line, Catalogue[a]);
    StartsWithHead(line, Catalogue[b]);
    CatalogueFirstCharInjective(a, b);
  }
}
