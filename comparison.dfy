/**
 * The offer comparison view: each offer's costs converted to roubles and
 * summed, the per-item table of the last cost line for each item, the
 * truncated carrier and date columns, and the "⭐ " marker on the row(s) of
 * every request whose formatted total string is least, compared character
 * by character (so not always the cheapest; `MarkedByAmount` is the marking
 * by amount).
 */
module Comparison {
  import opened Wrappers
  import opened Text
  import opened Offers

  /** Roubles per dollar and per euro. */
  datatype Rates = Rates(usd: real, eur: real)

  /** The rates the view uses when the central bank's daily feed cannot be read. */
  const FallbackRates := Rates(90.0, 100.0)

  /** The rates in force: those fetched, or the fallback ones. */
  function RatesFor(fetched: Option<Rates>): (r: Rates)
    ensures fetched.Some? ==> r == fetched.value
    ensures fetched.None? ==> r.usd == 90.0 && r.eur == 100.0
  {
    fetched.GetOr(FallbackRates)
  }

  // ---------------------------------------------------------------------
  // Conversion, total and item table
  // ---------------------------------------------------------------------

  /** A cost amount in roubles: dollars and euros at their rate, anything else as it is. */
  function ToRub(value: real, currency: string, rates: Rates): (r: real)
    // Only amounts in dollars and euros are rescaled.
    ensures currency != "USD" && currency != "EUR" ==> r == value
    // Non-negative amounts at non-negative rates stay non-negative.
    ensures value >= 0.0 && rates.usd >= 0.0 && rates.eur >= 0.0 ==> r >= 0.0
  {
    if currency == "USD" then value * rates.usd
    else if currency == "EUR" then value * rates.eur
    else value
  }

  /** A cost line takes part in the comparison when its item name is present and non-empty. */
  predicate Counted(c: CostLine) {
    c.item.Some? && |c.item.value| > 0
  }

  /** What the item table holds for one cost line. */
  datatype Entry = Entry(cost: real, currency: string, costRub: real)

  /** A missing amount counts as 0 and a missing currency as "". */
  function EntryOf(c: CostLine, rates: Rates): (e: Entry)
    ensures e.cost == c.cost.GetOr(0.0) && e.currency == c.currency.GetOr("")
    ensures e.costRub == ToRub(e.cost, e.currency, rates)
  {
    var value := c.cost.GetOr(0.0);
    var currency := c.currency.GetOr("");
    Entry(value, currency, ToRub(value, currency, rates))
  }

  /** The rouble total of an offer: the converted amounts of its counted lines, summed. */
  function Total(costs: seq<CostLine>, rates: Rates): (r: real)
    ensures (forall k :: 0 <= k < |costs| ==> !Counted(costs[k])) ==> r == 0.0
    ensures (forall k :: 0 <= k < |costs| ==> costs[k].cost.GetOr(0.0) >= 0.0) && rates.usd >= 0.0 && rates.eur >= 0.0
            ==> r >= 0.0
    decreases |costs|
  {
    if |costs| == 0 then 0.0
    else
      var last := costs[|costs| - 1];
      Total(costs[..|costs| - 1], rates) + (if Counted(last) then EntryOf(last, rates).costRub else 0.0)
  }

  /** The item table: for every counted item name, the entry of its last line. */
  function ItemTable(costs: seq<CostLine>, rates: Rates): (r: map<string, Entry>)
    ensures forall name :: name in r ==>
      exists i :: 0 <= i < |costs| && Counted(costs[i]) && costs[i].item.value == name && r[name] == EntryOf(costs[i], rates)
    decreases |costs|
  {
    if |costs| == 0 then map[]
    else
      var table := ItemTable(costs[..|costs| - 1], rates);
      var last := costs[|costs| - 1];
      if Counted(last) then table[last.item.value := EntryOf(last, rates)] else table
  }

  lemma TotalSingle(c: CostLine, rates: Rates)
    ensures Total([c], rates) == (if Counted(c) then ToRub(c.cost.GetOr(0.0), c.currency.GetOr(""), rates) else 0.0)
  {
    assert [c][..0] == [];
  }

  /** The total adds up over any split of the cost lines, so it is their sum line by line. */
  lemma {:induction false} TotalAppend(a: seq<CostLine>, b: seq<CostLine>, rates: Rates)
    ensures Total(a + b, rates) == Total(a, rates) + Total(b, rates)
    decreases |b|
  {
    if |b| == 0 {
      assert a + b == a;
    } else {
      var init := b[..|b| - 1];
      assert (a + b)[..|a + b| - 1] == a + init;
      assert (a + b)[|a + b| - 1] == b[|b| - 1];
      TotalAppend(a, init, rates);
    }
  }

  /** An item name is in the table exactly when some counted line carries it. */
  lemma {:induction false} ItemTableKeys(costs: seq<CostLine>, rates: Rates, name: string)
    ensures name in ItemTable(costs, rates) <==>
            exists i :: 0 <= i < |costs| && Counted(costs[i]) && costs[i].item.value == name
    decreases |costs|
  {
    if |costs| > 0 {
      var init := costs[..|costs| - 1];
      ItemTableKeys(init, rates, name);
      if exists i :: 0 <= i < |init| && Counted(init[i]) && init[i].item.value == name {
        var i :| 0 <= i < |init| && Counted(init[i]) && init[i].item.value == name;
        assert costs[i] == init[i];
      }
      if exists i :: 0 <= i < |costs| && Counted(costs[i]) && costs[i].item.value == name {
        var i :| 0 <= i < |costs| && Counted(costs[i]) && costs[i].item.value == name;
        if i < |init| { assert init[i] == costs[i]; }
      }
    }
  }

  /** The table keeps the entry of the last counted line of each item: later lines overwrite earlier ones. */
  lemma {:induction false} ItemTableLastWins(costs: seq<CostLine>, rates: Rates, i: nat)
    requires i < |costs| && Counted(costs[i])
    requires forall j :: i < j < |costs| && Counted(costs[j]) ==> costs[j].item.value != costs[i].item.value
    ensures costs[i].item.value in ItemTable(costs, rates)
    ensures ItemTable(costs, rates)[costs[i].item.value] == EntryOf(costs[i], rates)
    decreases |costs|
  {
    var init := costs[..|costs| - 1];
    if i < |costs| - 1 {
      forall j | i < j < |init| && Counted(init[j])
        ensures init[j].item.value != init[i].item.value
      {
        assert init[j] == costs[j];
      }
      ItemTableLastWins(init, rates, i);
    }
  }

  /** One more cost line adds its converted amount and, when counted, sets its item's entry. */
  lemma SummaryStep(costs: seq<CostLine>, c: CostLine, rates: Rates)
    ensures Total(costs + [c], rates) == Total(costs, rates) + (if Counted(c) then EntryOf(c, rates).costRub else 0.0)
    ensures ItemTable(costs + [c], rates)
      == if Counted(c) then ItemTable(costs, rates)[c.item.value := EntryOf(c, rates)] else ItemTable(costs, rates)
  {
    assert (costs + [c])[..|costs|] == costs;
  }

  /**
   * The comparison loop over one offer's cost lines: it accumulates the
   * rouble total and fills the item table.
   */
  method Summarise(costs: seq<CostLine>, rates: Rates) returns (total: real, table: map<string, Entry>)
    ensures total == Total(costs, rates)
    ensures table == ItemTable(costs, rates)
  {
    hide Total, ItemTable;
    total := 0.0;
    table := map[];
    var i := 0;
    while i < |costs|
      invariant 0 <= i <= |costs|
      invariant total == Total(costs[..i], rates)
      invariant table == ItemTable(costs[..i], rates)
    {
      var cost := costs[i];
      if cost.item.Some? && |cost.item.value| > 0 {
        var value := cost.cost.GetOr(0.0);
        var currency := cost.currency.GetOr("");
        var converted;
        if currency == "USD" {
          converted := value * rates.usd;
        } else if currency == "EUR" {
          converted := value * rates.eur;
        } else {
          converted := value;
        }
        assert Entry(value, currency, converted) == EntryOf(cost, rates);
        total := total + converted;
        table := table[cost.item.value := Entry(value, currency, converted)];
      }
      assert costs[..i + 1] == costs[..i] + [cost];
      SummaryStep(costs[..i], cost, rates);
      i := i + 1;
    }
    assert costs[..|costs|] == costs;
  }

  // ---------------------------------------------------------------------
  // Display columns
  // ---------------------------------------------------------------------

  /** Python's `s[:n]`. */
  function Truncate(s: string, n: nat): (r: string)
    ensures |r| <= n && r <= s
    ensures |s| <= n <==> r == s
    ensures |s| > n ==> r == s[..n]
  {
    if |s| <= n then s else s[..n]
  }

  /** The carrier column shows at most 20 characters of the sender. */
  function DisplaySender(sender: string): (r: string)
    ensures |r| <= 20 && r <= sender
    ensures |sender| <= 20 <==> r == sender
    ensures |sender| > 20 ==> r == sender[..20]
  {
    Truncate(sender, 20)
  }

  /** The date column shows at most 10 characters: the date part of an ISO timestamp. */
  function DisplayDate(received: string): (r: string)
    ensures |r| <= 10 && r <= received
    ensures |received| <= 10 <==> r == received
    ensures |received| > 10 ==> r == received[..10]
  {
    Truncate(received, 10)
  }

  /** A row of the comparison grid, with its total still a number; the view prints it with two decimals. */
  datatype ViewRow = ViewRow(
    received: string,
    sender: string,
    bidId: string,
    orderNumber: string,
    items: map<string, Entry>,
    total: real,
    status: Status)

  function RowOf(o: Offer, rates: Rates): ViewRow {
    ViewRow(DisplayDate(o.emailDate), DisplaySender(o.sender), o.bidId, o.orderNumber,
            ItemTable(o.costs, rates), Total(o.costs, rates), o.status)
  }

  /** The view's loop over the stored offers: one grid row per offer, in order. */
  method CompareOffers(offers: seq<Offer>, rates: Rates) returns (rows: seq<ViewRow>)
    ensures |rows| == |offers|
    ensures forall k :: 0 <= k < |offers| ==> rows[k] == RowOf(offers[k], rates)
  {
    rows := [];
    var i := 0;
    while i < |offers|
      invariant 0 <= i <= |offers| && |rows| == i
      invariant forall k :: 0 <= k < i ==> rows[k] == RowOf(offers[k], rates)
    {
      var offer := offers[i];
      var total, table := Summarise(offer.costs, rates);
      rows := rows + [ViewRow(DisplayDate(offer.emailDate), DisplaySender(offer.sender), offer.bidId,
                              offer.orderNumber, table, total, offer.status)];
      i := i + 1;
    }
  }

  /** Shortening twice is shortening once. */
  lemma TruncateIdempotent(s: string, n: nat)
    ensures Truncate(Truncate(s, n), n) == Truncate(s, n)
  {
  }

  /** Two senders that agree on their first 20 characters share one carrier cell. */
  lemma DisplaySenderCollides(a: string, b: string)
    requires |a| >= 20 && |b| >= 20 && a[..20] == b[..20]
    ensures DisplaySender(a) == DisplaySender(b)
  {
  }

  // ---------------------------------------------------------------------
  // Best-offer marker
  // ---------------------------------------------------------------------

  const Star := "⭐ "

  /** `t` is no greater, as a string, than the total of any row of request `id`. */
  predicate IsGroupMin(ids: seq<string>, totals: seq<string>, id: string, t: string)
    requires |ids| == |totals|
  {
    forall k :: 0 <= k < |ids| && ids[k] == id ==> LexLe(t, totals[k])
  }

  /** A row's total after marking: starred when it is its request's least total string. */
  function MarkedAt(ids: seq<string>, totals: seq<string>, k: nat): string
    requires |ids| == |totals| && k < |totals|
  {
    if IsGroupMin(ids, totals, ids[k], totals[k]) then Star + totals[k] else totals[k]
  }

  /** The total column after marking. */
  function Marked(ids: seq<string>, totals: seq<string>): (r: seq<string>)
    requires |ids| == |totals|
    ensures |r| == |totals|
    ensures forall k :: 0 <= k < |totals| ==> r[k] == MarkedAt(ids, totals, k)
  {
    seq(|totals|, k requires 0 <= k < |totals| => MarkedAt(ids, totals, k))
  }

  /** Row `m` has a least total string among the rows of request `id` before row `n`. */
  predicate LeastTotalUpTo(ids: seq<string>, totals: seq<string>, id: string, n: nat, m: nat)
    requires |ids| == |totals| && n <= |ids|
  {
    m < n && ids[m] == id && forall k :: 0 <= k < n && ids[k] == id ==> LexLe(totals[m], totals[k])
  }

  lemma {:induction false} LeastTotalExists(ids: seq<string>, totals: seq<string>, id: string, n: nat)
    requires |ids| == |totals| && n <= |ids|
    requires exists k :: 0 <= k < n && ids[k] == id
    ensures exists m :: 0 <= m < n && LeastTotalUpTo(ids, totals, id, n, m)
    decreases n
  {
    var last := n - 1;
    if exists k :: 0 <= k < last && ids[k] == id {
      LeastTotalExists(ids, totals, id, last);
      var m :| 0 <= m < last && LeastTotalUpTo(ids, totals, id, last, m);
      if ids[last] != id {
        assert LeastTotalUpTo(ids, totals, id, n, m);
      } else if LexLe(totals[m], totals[last]) {
        assert LeastTotalUpTo(ids, totals, id, n, m);
      } else {
        LexLeTotal(totals[m], totals[last]);
        LexLeReflexive(totals[last]);
        forall k | 0 <= k < n && ids[k] == id
          ensures LexLe(totals[last], totals[k])
        {
          if k < last { LexLeTransitive(totals[last], totals[m], totals[k]); }
        }
        assert LeastTotalUpTo(ids, totals, id, n, last);
      }
    } else {
      LexLeReflexive(totals[last]);
      assert LeastTotalUpTo(ids, totals, id, n, last);
    }
  }

  /** Every request with at least one row has a row whose total is the request's least. */
  lemma GroupHasMinimum(ids: seq<string>, totals: seq<string>, j: nat)
    requires |ids| == |totals| && j < |ids|
    ensures exists k :: 0 <= k < |ids| && ids[k] == ids[j] && IsGroupMin(ids, totals, ids[j], totals[k])
  {
    LeastTotalExists(ids, totals, ids[j], |ids|);
    var m :| 0 <= m < |ids| && LeastTotalUpTo(ids, totals, ids[j], |ids|, m);
    assert IsGroupMin(ids, totals, ids[j], totals[m]);
  }

  /** So marking stars at least one row of every request shown. */
  lemma MarkedStarsEveryGroup(ids: seq<string>, totals: seq<string>, j: nat)
    requires |ids| == |totals| && j < |ids|
    ensures exists k :: 0 <= k < |ids| && ids[k] == ids[j] && Marked(ids, totals)[k] == Star + totals[k]
  {
    GroupHasMinimum(ids, totals, j);
    var k :| 0 <= k < |ids| && ids[k] == ids[j] && IsGroupMin(ids, totals, ids[j], totals[k]);
    assert Marked(ids, totals)[k] == MarkedAt(ids, totals, k);
  }

  /** A starred row's total is the least of its request, and equal totals are starred alike. */
  lemma MarkedTiesAlike(ids: seq<string>, totals: seq<string>, a: nat, b: nat)
    requires |ids| == |totals| && a < |ids| && b < |ids|
    requires ids[a] == ids[b] && totals[a] == totals[b]
    ensures (Marked(ids, totals)[a] == Star + totals[a]) <==> (Marked(ids, totals)[b] == Star + totals[b])
  {
    assert Marked(ids, totals)[a] == MarkedAt(ids, totals, a);
    assert Marked(ids, totals)[b] == MarkedAt(ids, totals, b);
    if !IsGroupMin(ids, totals, ids[a], totals[a]) {
      assert |Star + totals[a]| != |totals[a]|;
    }
  }

  /** The least total string among the rows of request `id`. */
  method GroupMin(ids: seq<string>, totals: seq<string>, id: string) returns (m: string)
    requires |ids| == |totals|
    requires exists k :: 0 <= k < |ids| && ids[k] == id
    ensures exists k :: 0 <= k < |ids| && ids[k] == id && totals[k] == m
    ensures IsGroupMin(ids, totals, id, m)
  {
    var best: Option<string> := None;
    var k := 0;
    while k < |ids|
      invariant 0 <= k <= |ids|
      invariant best.None? ==> forall j :: 0 <= j < k ==> ids[j] != id
      invariant best.Some? ==> exists j :: 0 <= j < k && ids[j] == id && totals[j] == best.value
      invariant best.Some? ==> forall j :: 0 <= j < k && ids[j] == id ==> LexLe(best.value, totals[j])
    {
      if ids[k] == id {
        if best.None? {
          LexLeReflexive(totals[k]);
          best := Some(totals[k]);
        } else if !LexLe(best.value, totals[k]) {
          var b := best.value;
          LexLeTotal(b, totals[k]);
          forall j | 0 <= j < k && ids[j] == id
            ensures LexLe(totals[k], totals[j])
          {
            LexLeTransitive(totals[k], b, totals[j]);
          }
          LexLeReflexive(totals[k]);
          best := Some(totals[k]);
        }
      }
      k := k + 1;
    }
    m := best.value;
  }

  /** The rows whose string equals the group's least string are exactly the group's minima. */
  lemma MinimumRows(ids: seq<string>, totals: seq<string>, id: string, m: string, j: nat)
    requires |ids| == |totals| && j < |ids| && ids[j] == id
    requires exists k :: 0 <= k < |ids| && ids[k] == id && totals[k] == m
    requires IsGroupMin(ids, totals, id, m)
    ensures totals[j] == m <==> IsGroupMin(ids, totals, id, totals[j])
  {
    if IsGroupMin(ids, totals, id, totals[j]) {
      var k :| 0 <= k < |ids| && ids[k] == id && totals[k] == m;
      LexLeAntisymmetric(totals[j], m);
    }
  }

  /** A total column that agrees with `orig` on the rows of request `id` has the same group minima. */
  lemma GroupMinAgrees(ids: seq<string>, cur: seq<string>, orig: seq<string>, id: string, t: string)
    requires |ids| == |cur| == |orig|
    requires forall k :: 0 <= k < |ids| && ids[k] == id ==> cur[k] == orig[k]
    ensures IsGroupMin(ids, cur, id, t) <==> IsGroupMin(ids, orig, id, t)
  {
  }

  /** Stars, in place, every row of request `id` whose total is `m`. */
  method StarRows(ids: seq<string>, totals: array<string>, id: string, m: string)
    requires |ids| == totals.Length
    modifies totals
    ensures forall k :: 0 <= k < |ids| ==>
      totals[k] == (if ids[k] == id && old(totals[k]) == m then Star + old(totals[k]) else old(totals[k]))
  {
    var j := 0;
    while j < totals.Length
      invariant 0 <= j <= totals.Length
      invariant forall k :: 0 <= k < j ==>
        totals[k] == (if ids[k] == id && old(totals[k]) == m then Star + old(totals[k]) else old(totals[k]))
      invariant forall k :: j <= k < totals.Length ==> totals[k] == old(totals[k])
    {
      if ids[j] == id && totals[j] == m {
        totals[j] := Star + totals[j];
      }
      j := j + 1;
    }
  }

  /** The rows marked so far: those of the requests in `done` carry their final marking, the rest are as they were. */
  ghost predicate MarkedFor(ids: seq<string>, orig: seq<string>, cur: seq<string>, done: set<string>)
    requires |ids| == |orig| == |cur|
  {
    forall k :: 0 <= k < |ids| ==> cur[k] == (if ids[k] in done then MarkedAt(ids, orig, k) else orig[k])
  }

  /** Starring the rows equal to a request's least total completes that request's marking. */
  lemma StarRowsMarks(ids: seq<string>, orig: seq<string>, cur: seq<string>, next: seq<string>,
                      done: set<string>, id: string, m: string)
    requires |ids| == |orig| == |cur| == |next|
    requires MarkedFor(ids, orig, cur, done) && id !in done
    requires exists k :: 0 <= k < |ids| && ids[k] == id && cur[k] == m
    requires IsGroupMin(ids, cur, id, m)
    requires forall k :: 0 <= k < |ids| ==>
      next[k] == (if ids[k] == id && cur[k] == m then Star + cur[k] else cur[k])
    ensures MarkedFor(ids, orig, next, done + {id})
  {
    GroupMinAgrees(ids, cur, orig, id, m);
    var k0 :| 0 <= k0 < |ids| && ids[k0] == id && cur[k0] == m;
    forall k | 0 <= k < |ids| && ids[k] == id
      ensures next[k] == MarkedAt(ids, orig, k)
    {
      MinimumRows(ids, orig, id, m, k);
    }
  }

  lemma MarkedForNone(ids: seq<string>, orig: seq<string>)
    requires |ids| == |orig|
    ensures MarkedFor(ids, orig, orig, {})
  {
  }

  lemma MarkedForAll(ids: seq<string>, orig: seq<string>, cur: seq<string>, done: set<string>)
    requires |ids| == |orig| == |cur|
    requires MarkedFor(ids, orig, cur, done)
    requires forall k :: 0 <= k < |ids| ==> ids[k] in done
    ensures cur == Marked(ids, orig)
  {
  }

  /** One round of the marking loop: request `id`, of row `u`, gets its stars. */
  method MarkGroup(ids: seq<string>, totals: array<string>, id: string, u: nat,
                   ghost orig: seq<string>, ghost done: set<string>)
    requires |ids| == totals.Length == |orig| && u < |ids| && ids[u] == id
    requires MarkedFor(ids, orig, totals[..], done) && id !in done
    modifies totals
    ensures MarkedFor(ids, orig, totals[..], done + {id})
  {
    var cur := totals[..];
    var m := GroupMin(ids, cur, id);
    StarRows(ids, totals, id, m);
    StarRowsMarks(ids, orig, cur, totals[..], done, id, m);
  }

  /**
   * The marking loop as the view runs it: for every distinct request id,
   * compute the least total string of its rows and star each row equal to it.
   */
  method MarkBest(ids: seq<string>, totals: array<string>)
    requires |ids| == totals.Length
    modifies totals
    ensures totals[..] == Marked(ids, old(totals[..]))
  {
    ghost var orig := totals[..];
    MarkedForNone(ids, orig);
    var done: set<string> := {};
    var u := 0;
    while u < |ids|
      invariant 0 <= u <= |ids|
      invariant forall k :: 0 <= k < u ==> ids[k] in done
      invariant MarkedFor(ids, orig, totals[..], done)
    {
      var id := ids[u];
      if id !in done {
        MarkGroup(ids, totals, id, u, orig, done);
        done := done + {id};
      }
      u := u + 1;
    }
    MarkedForAll(ids, orig, totals[..], done);
  }

  // ---------------------------------------------------------------------
  // Ranking by amount
  // ---------------------------------------------------------------------

  /** The text the view prints for a total of 9 and of 10 roubles. */
  const NineRoubles := "9.00 ₽"
  const TenRoubles := "10.00 ₽"

  /**
   * The marker compares the printed totals as strings, so of two offers for
   * one request costing 9 and 10 roubles it stars the dearer one.
   */
  lemma StringMinimumStarsDearer()
    ensures Marked(["R1", "R1"], [NineRoubles, TenRoubles]) == [NineRoubles, Star + TenRoubles]
  {
    var ids := ["R1", "R1"];
    var totals := [NineRoubles, TenRoubles];
    assert !LexLe(totals[0], totals[1]);
    assert LexLe(totals[1], totals[0]);
    LexLeReflexive(totals[1]);
    assert IsGroupMin(ids, totals, "R1", totals[1]);
    assert MarkedAt(ids, totals, 0) == totals[0];
    assert MarkedAt(ids, totals, 1) == Star + totals[1];
  }

  /** `v` is no greater than the amount of any row of request `id`. */
  predicate IsCheapest(ids: seq<string>, amounts: seq<real>, id: string, v: real)
    requires |ids| == |amounts|
  {
    forall k :: 0 <= k < |ids| && ids[k] == id ==> v <= amounts[k]
  }

  /** The marking as intended: a row is starred when its rouble amount is the least of its request. */
  function MarkedByAmount(ids: seq<string>, amounts: seq<real>, totals: seq<string>): (r: seq<string>)
    requires |ids| == |amounts| == |totals|
    ensures |r| == |totals|
  {
    seq(|totals|, k requires 0 <= k < |totals| =>
      if IsCheapest(ids, amounts, ids[k], amounts[k]) then Star + totals[k] else totals[k])
  }

  /** Row `m` has a least amount among the rows of request `id` before row `n`. */
  predicate CheapestUpTo(ids: seq<string>, amounts: seq<real>, id: string, n: nat, m: nat)
    requires |ids| == |amounts| && n <= |ids|
  {
    m < n && ids[m] == id && forall k :: 0 <= k < n && ids[k] == id ==> amounts[m] <= amounts[k]
  }

  lemma {:induction false} CheapestExists(ids: seq<string>, amounts: seq<real>, id: string, n: nat)
    requires |ids| == |amounts| && n <= |ids|
    requires exists k :: 0 <= k < n && ids[k] == id
    ensures exists m :: 0 <= m < n && CheapestUpTo(ids, amounts, id, n, m)
    decreases n
  {
    var last := n - 1;
    if exists k :: 0 <= k < last && ids[k] == id {
      CheapestExists(ids, amounts, id, last);
      var m :| 0 <= m < last && CheapestUpTo(ids, amounts, id, last, m);
      if ids[last] == id && amounts[last] < amounts[m] {
        assert CheapestUpTo(ids, amounts, id, n, last);
      } else {
        assert CheapestUpTo(ids, amounts, id, n, m);
      }
    } else {
      assert CheapestUpTo(ids, amounts, id, n, last);
    }
  }

  /** Every request shown has a row of least amount. */
  lemma GroupHasCheapest(ids: seq<string>, amounts: seq<real>, j: nat)
    requires |ids| == |amounts| && j < |ids|
    ensures exists k :: 0 <= k < |ids| && ids[k] == ids[j] && IsCheapest(ids, amounts, ids[j], amounts[k])
  {
    CheapestExists(ids, amounts, ids[j], |ids|);
    var m :| 0 <= m < |ids| && CheapestUpTo(ids, amounts, ids[j], |ids|, m);
    assert IsCheapest(ids, amounts, ids[j], amounts[m]);
  }

  /**
   * Marking by amount stars a row exactly when no row of its request costs
   * less, and stars at least one row of every request.
   */
  lemma MarkedByAmountStarsCheapest(ids: seq<string>, amounts: seq<real>, totals: seq<string>, j: nat)
    requires |ids| == |amounts| == |totals| && j < |ids|
    ensures MarkedByAmount(ids, amounts, totals)[j] == Star + totals[j] <==>
            forall k :: 0 <= k < |ids| && ids[k] == ids[j] ==> amounts[j] <= amounts[k]
    ensures exists k :: 0 <= k < |ids| && ids[k] == ids[j] && MarkedByAmount(ids, amounts, totals)[k] == Star + totals[k]
  {
    if !IsCheapest(ids, amounts, ids[j], amounts[j]) {
      assert |Star + totals[j]| != |totals[j]|;
    }
    GroupHasCheapest(ids, amounts, j);
  }
}
