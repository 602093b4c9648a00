/**
 * Saving the statuses chosen in the comparison grid back into the stored
 * offers, with status notifications to carriers, and purging the offers the
 * grid marks as rejected.
 */
module Reconcile {
  import opened Wrappers
  import opened Offers
  import opened Folds
  import opened Comparison

  /** A row of the edited grid as the save and purge handlers read it: request id, carrier cell, status cell. */
  datatype GridRow = GridRow(bidId: string, sender: string, status: Status)

  function RowKey(r: GridRow): Key { Key(r.bidId, r.sender) }

  /** The grid the view shows: one row per comparison row, with the status the user left in it. */
  function GridRows(rows: seq<ViewRow>, chosen: seq<Status>): (g: seq<GridRow>)
    requires |rows| == |chosen|
    ensures |g| == |rows|
    ensures forall k :: 0 <= k < |g| ==> g[k] == GridRow(rows[k].bidId, rows[k].sender, chosen[k])
  {
    seq(|rows|, k requires 0 <= k < |rows| => GridRow(rows[k].bidId, rows[k].sender, chosen[k]))
  }

  /** Every carrier cell of the grid holds at most 20 characters. */
  lemma GridSendersShort(offers: seq<Offer>, rates: Rates, chosen: seq<Status>, k: nat)
    requires |offers| == |chosen| && k < |offers|
    ensures |GridRows(seq(|offers|, i requires 0 <= i < |offers| => RowOf(offers[i], rates)), chosen)[k].sender| <= 20
  {
  }

  // ---------------------------------------------------------------------
  // The new statuses
  // ---------------------------------------------------------------------

  /** The new status of every key in the grid; of two rows with one key the later wins. */
  function StatusMap(rows: seq<GridRow>): (r: map<Key, Status>)
    ensures forall key :: key in r ==>
      exists i :: 0 <= i < |rows| && RowKey(rows[i]) == key && r[key] == rows[i].status
    decreases |rows|
  {
    if |rows| == 0 then map[]
    else
      var last := rows[|rows| - 1];
      StatusMap(rows[..|rows| - 1])[RowKey(last) := last.status]
  }

  /** A key has a new status exactly when some grid row carries it. */
  lemma {:induction false} StatusMapKeys(rows: seq<GridRow>, key: Key)
    ensures key in StatusMap(rows) <==> exists i :: 0 <= i < |rows| && RowKey(rows[i]) == key
    decreases |rows|
  {
    if |rows| > 0 {
      var init := rows[..|rows| - 1];
      StatusMapKeys(init, key);
      if exists i :: 0 <= i < |init| && RowKey(init[i]) == key {
        var i :| 0 <= i < |init| && RowKey(init[i]) == key;
        assert rows[i] == init[i];
      }
      if exists i :: 0 <= i < |rows| && RowKey(rows[i]) == key {
        var i :| 0 <= i < |rows| && RowKey(rows[i]) == key;
        if i < |init| { assert init[i] == rows[i]; }
      }
    }
  }

  /** The status kept for a key is that of its last row. */
  lemma {:induction false} StatusMapLastWins(rows: seq<GridRow>, i: nat)
    requires i < |rows|
    requires forall j :: i < j < |rows| ==> RowKey(rows[j]) != RowKey(rows[i])
    ensures RowKey(rows[i]) in StatusMap(rows) && StatusMap(rows)[RowKey(rows[i])] == rows[i].status
    decreases |rows|
  {
    var init := rows[..|rows| - 1];
    if i < |rows| - 1 {
      forall j | i < j < |init|
        ensures RowKey(init[j]) != RowKey(init[i])
      {
        assert init[j] == rows[j];
      }
      StatusMapLastWins(init, i);
    }
  }

  /** The loop that fills the lookup of new statuses from the grid rows. */
  method BuildStatusMap(rows: seq<GridRow>) returns (grid: map<Key, Status>)
    ensures grid == StatusMap(rows)
  {
    grid := map[];
    var i := 0;
    while i < |rows|
      invariant 0 <= i <= |rows|
      invariant grid == StatusMap(rows[..i])
    {
      grid := grid[RowKey(rows[i]) := rows[i].status];
      assert rows[..i + 1][..i] == rows[..i];
      i := i + 1;
    }
    assert rows[..|rows|] == rows;
  }

  // ---------------------------------------------------------------------
  // The save pass
  // ---------------------------------------------------------------------

  /** The status an offer leaves the pass with: the grid's for its key, else its own. */
  function NewStatus(o: Offer, grid: map<Key, Status>): Status {
    if KeyOf(o) in grid then grid[KeyOf(o)] else o.status
  }

  /** The anti-flood rule: a readable stamp less than a minute before `now` holds the notification back. */
  predicate Debounced(now: real, last: Stamp) {
    last.At? && now - last.seconds < 60.0
  }

  /** The grid moves the offer into Отклонено or Принято and the carrier was not told within the last minute. */
  predicate Notifies(o: Offer, grid: map<Key, Status>, now: real) {
    KeyOf(o) in grid && IsTerminal(grid[KeyOf(o)]) && o.status != grid[KeyOf(o)]
    && !Debounced(now, o.lastStatusChange)
  }

  /** The outcome of the `a`-th send attempt of the pass, from the sequence of outcomes of the mail service. */
  predicate Delivered(sends: seq<bool>, a: nat) {
    a < |sends| && sends[a]
  }

  /** The pass's state: offers written so far, senders told, send attempts, successful sends. */
  datatype Pass = Pass(updated: seq<Offer>, notified: set<string>, attempts: nat, successes: nat)

  /**
   * One offer through the pass. It adds the offer written back; a send
   * attempt exactly when the offer qualifies and its carrier was not yet
   * told; and a notification exactly when, in addition, that send goes through.
   */
  function Step(p: Pass, o: Offer, grid: map<Key, Status>, now: real, sends: seq<bool>): (r: Pass)
    ensures var told := Notifies(o, grid, now) && o.sender !in p.notified && Delivered(sends, p.attempts);
      && |r.updated| == |p.updated| + 1 && r.updated[..|p.updated|] == p.updated
      && Saved(o, r.updated[|p.updated|], grid, now)
      && (Stamped(o, r.updated[|p.updated|]) <==> told)
      && r.notified == (if told then p.notified + {o.sender} else p.notified)
      && r.successes == (if told then p.successes + 1 else p.successes)
      && r.attempts == (if Notifies(o, grid, now) && o.sender !in p.notified then p.attempts + 1 else p.attempts)
  {
    var changed := o.(status := NewStatus(o, grid));
    if Notifies(o, grid, now) && o.sender !in p.notified then
      if Delivered(sends, p.attempts) then
        Pass(p.updated + [changed.(lastStatusChange := At(now))], p.notified + {o.sender},
             p.attempts + 1, p.successes + 1)
      else
        Pass(p.updated + [changed], p.notified, p.attempts + 1, p.successes)
    else
      p.(updated := p.updated + [changed])
  }

  /** The pass over the stored offers, in their order: one offer written back for each one read. */
  function Run(offers: seq<Offer>, grid: map<Key, Status>, now: real, sends: seq<bool>): (p: Pass)
    ensures |p.updated| == |offers|
    ensures p.successes <= p.attempts <= |offers|
    decreases |offers|
  {
    if |offers| == 0 then Pass([], {}, 0, 0)
    else Step(Run(offers[..|offers| - 1], grid, now, sends), offers[|offers| - 1], grid, now, sends)
  }

  /** The stored offer `u` is `o` as the pass leaves it: new status, and a fresh stamp only after a notification it qualified for. */
  predicate Saved(o: Offer, u: Offer, grid: map<Key, Status>, now: real) {
    u.(lastStatusChange := o.lastStatusChange) == o.(status := NewStatus(o, grid))
    && (u.lastStatusChange != o.lastStatusChange ==> u.lastStatusChange == At(now) && Notifies(o, grid, now))
  }

  /** The offer's carrier was notified in this pass: its stamp moved. */
  predicate Stamped(o: Offer, u: Offer) {
    u.lastStatusChange != o.lastStatusChange
  }

  /** The senders notified are those of the offers whose stamp moved. */
  ghost predicate NotifiedAreStamped(offers: seq<Offer>, p: Pass)
    requires |p.updated| == |offers|
  {
    forall s :: s in p.notified <==>
      exists k :: 0 <= k < |offers| && Stamped(offers[k], p.updated[k]) && offers[k].sender == s
  }

  /** No carrier is notified twice in one pass. */
  ghost predicate OneStampPerSender(offers: seq<Offer>, p: Pass)
    requires |p.updated| == |offers|
  {
    forall i, j :: 0 <= i < |offers| && 0 <= j < |offers| && i != j &&
      Stamped(offers[i], p.updated[i]) && Stamped(offers[j], p.updated[j])
      ==> offers[i].sender != offers[j].sender
  }

  /** Every offer comes back, in order, changed only in its status (the grid's, whether or not a notification went out) and, after a notification, its stamp. */
  lemma {:induction false} RunSaved(offers: seq<Offer>, grid: map<Key, Status>, now: real, sends: seq<bool>)
    ensures forall k :: 0 <= k < |offers| ==> Saved(offers[k], Run(offers, grid, now, sends).updated[k], grid, now)
    decreases |offers|
  {
    if |offers| > 0 {
      var n := |offers| - 1;
      var init := offers[..n];
      var q := Run(init, grid, now, sends);
      var p := Run(offers, grid, now, sends);
      RunSaved(init, grid, now, sends);
      forall k | 0 <= k < |offers|
        ensures Saved(offers[k], p.updated[k], grid, now)
      {
        if k < n {
          assert offers[k] == init[k] && p.updated[k] == q.updated[k];
        }
      }
    }
  }

  lemma NotifiedStep(init: seq<Offer>, q: Pass, o: Offer, grid: map<Key, Status>, now: real, sends: seq<bool>)
    requires |q.updated| == |init| && NotifiedAreStamped(init, q)
    ensures |Step(q, o, grid, now, sends).updated| == |init + [o]|
    ensures NotifiedAreStamped(init + [o], Step(q, o, grid, now, sends))
  {
    var p := Step(q, o, grid, now, sends);
    var offers := init + [o];
    var n := |init|;
    assert forall k :: 0 <= k < n ==> offers[k] == init[k] && p.updated[k] == q.updated[k];
    forall s
      ensures s in p.notified <==>
        exists k :: 0 <= k < |offers| && Stamped(offers[k], p.updated[k]) && offers[k].sender == s
    {
      if s in q.notified {
        var k :| 0 <= k < n && Stamped(init[k], q.updated[k]) && init[k].sender == s;
        assert Stamped(offers[k], p.updated[k]);
      }
      if exists k :: 0 <= k < |offers| && Stamped(offers[k], p.updated[k]) && offers[k].sender == s {
        var k :| 0 <= k < |offers| && Stamped(offers[k], p.updated[k]) && offers[k].sender == s;
        if k < n {
          assert Stamped(init[k], q.updated[k]);
        }
      }
    }
  }

  lemma OneStampStep(init: seq<Offer>, q: Pass, o: Offer, grid: map<Key, Status>, now: real, sends: seq<bool>)
    requires |q.updated| == |init| && NotifiedAreStamped(init, q) && OneStampPerSender(init, q)
    ensures |Step(q, o, grid, now, sends).updated| == |init + [o]|
    ensures OneStampPerSender(init + [o], Step(q, o, grid, now, sends))
  {
    var p := Step(q, o, grid, now, sends);
    var offers := init + [o];
    var n := |init|;
    assert forall k :: 0 <= k < n ==> offers[k] == init[k] && p.updated[k] == q.updated[k];
    forall i, j | 0 <= i < |offers| && 0 <= j < |offers| && i != j &&
        Stamped(offers[i], p.updated[i]) && Stamped(offers[j], p.updated[j])
      ensures offers[i].sender != offers[j].sender
    {
      if i < n && j < n {
        assert Stamped(init[i], q.updated[i]) && Stamped(init[j], q.updated[j]);
      } else if i < n {
        assert Stamped(init[i], q.updated[i]);
      } else {
        assert Stamped(init[j], q.updated[j]);
      }
    }
  }

  /** Each carrier is notified at most once, the carriers notified are those of the stamped offers, and the success count is their number. */
  lemma {:induction false} RunNotified(offers: seq<Offer>, grid: map<Key, Status>, now: real, sends: seq<bool>)
    ensures NotifiedAreStamped(offers, Run(offers, grid, now, sends))
    ensures OneStampPerSender(offers, Run(offers, grid, now, sends))
    ensures Run(offers, grid, now, sends).successes == |Run(offers, grid, now, sends).notified|
    decreases |offers|
  {
    hide Step;
    if |offers| > 0 {
      var n := |offers| - 1;
      var init := offers[..n];
      var o := offers[n];
      var q := Run(init, grid, now, sends);
      RunNotified(init, grid, now, sends);
      assert offers == init + [o];
      assert Run(offers, grid, now, sends) == Step(q, o, grid, now, sends);
      NotifiedStep(init, q, o, grid, now, sends);
      OneStampStep(init, q, o, grid, now, sends);
    }
  }

  /** When every attempt goes through, the carriers notified are exactly those with an offer that qualifies. */
  lemma {:induction false} RunAllDelivered(offers: seq<Offer>, grid: map<Key, Status>, now: real, sends: seq<bool>)
    requires |sends| >= |offers| && forall a :: 0 <= a < |sends| ==> sends[a]
    ensures forall s :: s in Run(offers, grid, now, sends).notified <==>
      exists k :: 0 <= k < |offers| && Notifies(offers[k], grid, now) && offers[k].sender == s
    decreases |offers|
  {
    if |offers| > 0 {
      var n := |offers| - 1;
      var init := offers[..n];
      var q := Run(init, grid, now, sends);
      RunAllDelivered(init, grid, now, sends);
      assert Delivered(sends, q.attempts);
      forall s
        ensures s in Run(offers, grid, now, sends).notified <==>
          exists k :: 0 <= k < |offers| && Notifies(offers[k], grid, now) && offers[k].sender == s
      {
        if exists k :: 0 <= k < |offers| && Notifies(offers[k], grid, now) && offers[k].sender == s {
          var k :| 0 <= k < |offers| && Notifies(offers[k], grid, now) && offers[k].sender == s;
          if k < n { assert init[k] == offers[k]; }
        }
        if s in q.notified {
          var k :| 0 <= k < n && Notifies(init[k], grid, now) && init[k].sender == s;
          assert offers[k] == init[k];
        }
      }
    }
  }

  /** When every send fails, no stamp moves and nobody counts as notified, yet every status change is kept. */
  lemma {:induction false} RunNoneDelivered(offers: seq<Offer>, grid: map<Key, Status>, now: real, sends: seq<bool>)
    requires forall a :: 0 <= a < |sends| ==> !sends[a]
    ensures |Run(offers, grid, now, sends).updated| == |offers|
    ensures forall k :: 0 <= k < |offers| ==>
      Run(offers, grid, now, sends).updated[k] == offers[k].(status := NewStatus(offers[k], grid))
    ensures Run(offers, grid, now, sends).notified == {} && Run(offers, grid, now, sends).successes == 0
    decreases |offers|
  {
    if |offers| > 0 {
      var n := |offers| - 1;
      var init := offers[..n];
      RunNoneDelivered(init, grid, now, sends);
      var q := Run(init, grid, now, sends);
      var p := Run(offers, grid, now, sends);
      assert p == Step(q, offers[n], grid, now, sends);
      assert !Delivered(sends, q.attempts);
      assert p.updated[..n] == q.updated;
      forall k | 0 <= k < |offers|
        ensures p.updated[k] == offers[k].(status := NewStatus(offers[k], grid))
      {
        if k < n {
          assert offers[k] == init[k];
          assert p.updated[k] == p.updated[..n][k];
        }
      }
    }
  }

  /** An offer whose carrier was notified does not qualify for a send in a save less than a minute later, so none is attempted for it. */
  lemma RepeatWithinMinute(offers: seq<Offer>, grid: map<Key, Status>, now: real, sends: seq<bool>,
                           grid2: map<Key, Status>, later: real, sends2: seq<bool>, k: nat)
    requires k < |offers|
    requires Stamped(offers[k], Run(offers, grid, now, sends).updated[k])
    requires now <= later < now + 60.0
    ensures var first := Run(offers, grid, now, sends).updated;
            !Notifies(first[k], grid2, later)
            && !Stamped(first[k], Run(first, grid2, later, sends2).updated[k])
  {
    RunSaved(offers, grid, now, sends);
    var first := Run(offers, grid, now, sends).updated;
    assert Debounced(later, first[k].lastStatusChange);
    RunSaved(first, grid2, later, sends2);
  }

  lemma RunSnoc(offers: seq<Offer>, i: nat, grid: map<Key, Status>, now: real, sends: seq<bool>)
    requires i < |offers|
    ensures Run(offers[..i + 1], grid, now, sends) == Step(Run(offers[..i], grid, now, sends), offers[i], grid, now, sends)
  {
    assert offers[..i + 1][..i] == offers[..i];
  }

  /**
   * The status-save handler: build the lookup of new statuses, then walk the
   * stored offers, set each one's status, and notify its carrier when the
   * rules allow; `sends` gives the outcome of each send attempt in turn.
   */
  method SaveStatuses(rows: seq<GridRow>, offers: seq<Offer>, now: real, sends: seq<bool>)
    returns (updated: seq<Offer>, notified: set<string>, successes: nat, attempts: nat)
    ensures Pass(updated, notified, attempts, successes) == Run(offers, StatusMap(rows), now, sends)
  {
    var grid := BuildStatusMap(rows);
    updated := [];
    notified := {};
    successes := 0;
    attempts := 0;
    var i := 0;
    while i < |offers|
      invariant 0 <= i <= |offers|
      invariant Pass(updated, notified, attempts, successes) == Run(offers[..i], grid, now, sends)
    {
      ghost var before := Pass(updated, notified, attempts, successes);
      var offer := offers[i];
      var key := KeyOf(offer);
      if key in grid {
        var oldStatus := offer.status;
        var newStatus := grid[key];
        offer := offer.(status := newStatus);
        if IsTerminal(newStatus) && oldStatus != newStatus {
          var shouldSend := true;
          if offer.lastStatusChange.At? && now - offer.lastStatusChange.seconds < 60.0 {
            shouldSend := false;
          }
          if offer.sender in notified {
            shouldSend := false;
          }
          if shouldSend {
            var ok := attempts < |sends| && sends[attempts];
            attempts := attempts + 1;
            if ok {
              successes := successes + 1;
              offer := offer.(lastStatusChange := At(now));
              notified := notified + {offer.sender};
            }
          }
        }
      }
      updated := updated + [offer];
      assert Pass(updated, notified, attempts, successes) == Step(before, offers[i], grid, now, sends);
      RunSnoc(offers, i, grid, now, sends);
      i := i + 1;
    }
    assert offers[..|offers|] == offers;
  }

  // ---------------------------------------------------------------------
  // Purge
  // ---------------------------------------------------------------------

  /** The keys of the grid rows whose status cell says Отклонено. */
  function RejectedKeys(rows: seq<GridRow>): set<Key> {
    set i | 0 <= i < |rows| && rows[i].status == Rejected :: RowKey(rows[i])
  }

  /** The purge handler: keep, in order, the offers whose key no rejected grid row carries. */
  function Purge(offers: seq<Offer>, rows: seq<GridRow>): (r: seq<Offer>)
    ensures |r| <= |offers|
    ensures forall o :: o in r <==> o in offers && KeyOf(o) !in RejectedKeys(rows)
  {
    var rejected := RejectedKeys(rows);
    Filter(offers, o => KeyOf(o) !in rejected)
  }

  /** Purging keeps the stored order. */
  lemma PurgeAppend(a: seq<Offer>, b: seq<Offer>, rows: seq<GridRow>)
    ensures Purge(a + b, rows) == Purge(a, rows) + Purge(b, rows)
  {
    var rejected := RejectedKeys(rows);
    FilterAppend(a, b, o => KeyOf(o) !in rejected);
  }

  /** The stored status plays no part: an offer is removed exactly when a grid row with its key says Отклонено. */
  lemma PurgeUsesGridOnly(offers: seq<Offer>, rows: seq<GridRow>, k: nat)
    requires k < |offers|
    ensures offers[k] !in Purge(offers, rows) <==>
      exists i :: 0 <= i < |rows| && rows[i].status == Rejected && RowKey(rows[i]) == KeyOf(offers[k])
  {
    if offers[k] !in Purge(offers, rows) {
      var i :| 0 <= i < |rows| && rows[i].status == Rejected && RowKey(rows[i]) == KeyOf(offers[k]);
    }
  }

  // ---------------------------------------------------------------------
  // Grid keys and long sender names
  // ---------------------------------------------------------------------

  /**
   * The grid's carrier cell holds at most 20 characters, so an offer whose
   * sender name is longer never meets its grid row: the save leaves it as it
   * was and the purge keeps it, whatever the user chose.
   */
  lemma LongSenderUnreached(rows: seq<GridRow>, offers: seq<Offer>, now: real, sends: seq<bool>, k: nat)
    requires forall i :: 0 <= i < |rows| ==> |rows[i].sender| <= 20
    requires k < |offers| && |offers[k].sender| > 20
    ensures Run(offers, StatusMap(rows), now, sends).updated[k] == offers[k]
    ensures offers[k] in Purge(offers, rows)
  {
    StatusMapKeys(rows, KeyOf(offers[k]));
    RunSaved(offers, StatusMap(rows), now, sends);
  }

  /** The grid as it must be keyed for the handlers to find every offer: by the full sender name. */
  function KeyedGridRows(offers: seq<Offer>, chosen: seq<Status>): (g: seq<GridRow>)
    requires |offers| == |chosen|
    ensures |g| == |offers|
    ensures forall k :: 0 <= k < |g| ==> RowKey(g[k]) == KeyOf(offers[k]) && g[k].status == chosen[k]
  {
    seq(|offers|, k requires 0 <= k < |offers| => GridRow(offers[k].bidId, offers[k].sender, chosen[k]))
  }

  /**
   * Keyed by the full sender, the grid reaches every offer: an offer whose
   * key no later offer shares gets the status chosen for it, and every
   * offer marked Отклонено is purged.
   */
  lemma KeyedGridReachesEveryOffer(offers: seq<Offer>, chosen: seq<Status>, now: real, sends: seq<bool>, k: nat)
    requires |offers| == |chosen| && k < |offers|
    requires forall j :: k < j < |offers| ==> KeyOf(offers[j]) != KeyOf(offers[k])
    ensures Run(offers, StatusMap(KeyedGridRows(offers, chosen)), now, sends).updated[k].status == chosen[k]
    ensures chosen[k] == Rejected ==> offers[k] !in Purge(offers, KeyedGridRows(offers, chosen))
  {
    var g := KeyedGridRows(offers, chosen);
    StatusMapLastWins(g, k);
    RunSaved(offers, StatusMap(g), now, sends);
    if chosen[k] == Rejected {
      assert RowKey(g[k]) in RejectedKeys(g);
    }
  }
}
