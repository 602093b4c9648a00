/**
 * The request mail's cost lines read back by the offer parser: a carrier who
 * replies with the form's lines unchanged gets each line's item, amount and
 * currency back as a cost entry.
 */
module Reparse {
  import opened Wrappers
  import opened Text
  import opened Patterns
  import opened Offers
  import opened Parser
  import opened BidRequest

  /** A decimal literal is made of digits and at most one dot. */
  lemma DecimalChars(t: string)
    requires IsDecimal(t)
    ensures forall k :: 0 <= k < |t| ==> IsDigit(t[k]) || t[k] == '.'
  {
    var d := IndexOf(t, '.');
    if d >= 0 {
      forall k | 0 <= k < |t| ensures IsDigit(t[k]) || t[k] == '.' {
        if k < d {
          assert t[..d][k] == t[k];
        } else if k > d {
          assert t[d + 1..][k - d - 1] == t[k];
        }
      }
    }
  }

  /**
   * The part of a cost line after the item name, stripped, is ": <amount>
   * <currency>"; the cost pattern's leftmost match there starts at the space
   * after the colon and captures that space with the amount, and the currency.
   */
  lemma AmountOfTail(d: string, cur: string)
    requires IsDecimal(d)
    requires |cur| == 3 && IsUpper(cur[0]) && IsUpper(cur[1]) && IsUpper(cur[2])
    ensures Captured(": " + d + " " + cur, AmountAt) == Some((" " + d, cur))
  {
    var rest := ": " + d + " " + cur;
    DecimalChars(d);
    assert AmountAt(rest, 0).None? by {
      RunEndAt(rest, 0, 0, IsAmountChar);
    }
    var j := 2 + |d| + 1;
    assert forall k :: 1 <= k < j ==> IsAmountChar(rest[k]) by {
      forall k | 1 <= k < j ensures IsAmountChar(rest[k]) {
        if 2 <= k < 2 + |d| {
          assert rest[k] == d[k - 2];
        }
      }
    }
    assert rest[j] == cur[0];
    RunEndAt(rest, 1, j, IsAmountChar);
    assert rest[1..j - 1] == " " + d;
    assert rest[j..j + 3] == cur;
    assert AmountAt(rest, 1) == Some((" " + d, cur));
    assert Search(rest, 0, AmountAt) == Search(rest, 1, AmountAt);
  }

  /** The amount text the pattern captures cleans back to the literal. */
  lemma CleanAmountOfLiteral(d: string)
    requires IsDecimal(d)
    ensures CleanAmount(" " + d) == d
  {
    hide IsDecimal, DecimalValue, ParseFloat;
    DecimalChars(d);
    assert ' ' !in d && ',' !in d by {
      forall k | 0 <= k < |d| ensures d[k] != ' ' && d[k] != ',' {
        assert IsDigit(d[k]) || d[k] == '.';
      }
    }
    RemoveCharAppend(" ", d, ' ');
    assert RemoveChar(" ", ' ') == [];
    assert RemoveChar(" " + d, ' ') == d;
    assert ReplaceChar(d, ',', '.') == d;
  }

  /** `float()` reads a decimal literal as its value. */
  lemma ParseLiteral(d: string)
    requires IsDecimal(d)
    ensures ParseFloat(d) == Some(DecimalValue(d))
  {
    hide DecimalValue;
    DecimalChars(d);
    assert |d| > 0 by {
      var x := IndexOf(d, '.');
    }
    assert IsDigit(d[0]) || d[0] == '.';
    assert IsDigit(d[|d| - 1]) || d[|d| - 1] == '.';
    StripNoEdges(d);
  }

  /** The mail shows the cost as a decimal literal of its value, and the currency as three capitals. */
  predicate ShownAsLiteral(c: BidCost, show: real -> string) {
    IsDecimal(show(c.cost)) && DecimalValue(show(c.cost)) == c.cost
    && |c.currency| == 3 && IsUpper(c.currency[0]) && IsUpper(c.currency[1]) && IsUpper(c.currency[2])
  }

  /** Item `i` yields its entry for "<item>: <amount> <currency>". */
  lemma ItemEntryOfText(i: nat, d: string, cur: string)
    requires i < |Catalogue| && IsDecimal(d)
    requires |cur| == 3 && IsUpper(cur[0]) && IsUpper(cur[1]) && IsUpper(cur[2])
    ensures ItemEntry(Catalogue[i] + ": " + d + " " + cur, i)
      == Some(CostLine(Some(Catalogue[i]), Some(DecimalValue(d)), Some(cur)))
  {
    hide DecimalValue, IsDecimal, Captured, CleanAmount, ParseFloat, Strip;
    var item := Catalogue[i];
    var tail := ": " + d + " " + cur;
    var line := item + tail;
    assert line == Catalogue[i] + ": " + d + " " + cur;
    assert line[..|item|] == item;
    assert line[|item|..] == tail;
    assert Strip(tail) == tail by {
      StripNoEdges(tail);
    }
    AmountOfTail(d, cur);
    CleanAmountOfLiteral(d);
    ParseLiteral(d);
  }

  /**
   * A cost line of the request mail, stripped as the parser strips its
   * lines, yields the entry for its catalogue item with the shown amount and
   * the currency, provided the amount is shown as a decimal literal of its
   * value and the currency is three capitals.
   */
  lemma CostTextReparses(i: nat, c: BidCost, show: real -> string)
    requires i < |Catalogue| && ShownAsLiteral(c, show)
    ensures Strip(CostText(Catalogue[i], c, show)) == CostText(Catalogue[i], c, show)
    ensures LineEntry(CostText(Catalogue[i], c, show)) == Some(CostLine(Some(Catalogue[i]), Some(c.cost), Some(c.currency)))
  {
    hide DecimalValue, IsDecimal, LineEntry, ItemEntry, Strip;
    var item := Catalogue[i];
    var d := show(c.cost);
    var line := CostText(item, c, show);
    assert line == item + ": " + d + " " + c.currency;
    assert line[..|item|] == item;
    assert Strip(line) == line by {
      assert line[0] == item[0];
      assert line[|line| - 1] == c.currency[2];
      StripNoEdges(line);
    }
    LineOfItem(line, i);
    ItemEntryOfText(i, d, c.currency);
  }

  /**
   * So every cost line of the mail reads back: line 21+i of the request mail
   * yields catalogue item i with the amount and currency the mail shows for it.
   */
  lemma MailCostLineReparses(bid: Bid, show: real -> string, i: nat)
    requires i < |Catalogue| && ShownAsLiteral(CostFor(bid, Catalogue[i]), show)
    ensures CostLinesStart + i < |MailLines(bid, show)|
    ensures var c := CostFor(bid, Catalogue[i]);
      LineEntry(Strip(MailLines(bid, show)[CostLinesStart + i]))
        == Some(CostLine(Some(Catalogue[i]), Some(c.cost), Some(c.currency)))
  {
    MailCostLine(bid, show, i);
    CostTextReparses(i, CostFor(bid, Catalogue[i]), show);
  }
}
