# Freight-quote offer engine, modelled in Dafny

The program runs a freight-forwarding desk. It sends a bid request (a
shipment description plus a seven-item cost catalogue) to a list of
carriers. It reads the carriers' replies from an Outlook folder and parses
each message body into an offer: request id, order number, rate and a list
of cost entries. It converts each offer's costs to roubles and, within each
request, stars the row(s) whose formatted total string is least (the
strings are compared character by character; see "## Findings"). An edited grid of statuses is
saved back into the stored offers, and carriers are mailed when their offer
is rejected or accepted. Rejected offers can be purged. For a chosen offer,
the program fills a contract template from the bid, the offer and the
carrier's profile.

The model lifts that logic out of its user-interface handlers and mail
calls. Every outside effect is replaced by a parameter:

- the outcome of each mail send is a `seq<bool>`;
- the exchange rates are an optional fetched value;
- the clock is a number of seconds, or a date string;
- the carrier workbook is an optional list of rows;
- the number formatter is a function `real -> string`.

Modules:

- `Wrappers`: the `Option` type.
- `Text`: characters, Python's `strip`, `find`, `split`/`join`, slicing, the decimal literals `float()` accepts, and the lexicographic order of strings.
- `Patterns`: hand-written matchers for the regular expressions the parser uses, each with lemmas saying which match Python's backtracking search returns.
- `Folds`: list comprehensions with and without a condition, and `next(...)` over a generator.
- `Offers`: the data model (offers, cost lines, bids, statuses, the cost catalogue).
- `Parser`: one message body into an optional offer; the `MailItem` and `OfferStore` classes and the ingest loop over a mail folder.
- `Comparison`: rouble conversion, totals, the per-item table, display truncation, and in-place star marking on an `array<string>`.
- `Reconcile`: the status grid, the status-save pass with notification rules, and the purge.
- `Contract`: offer and bid selection, the carrier-profile lookup, the contract context, the stored file path, and the `ContractLog` class.
- `BidRequest`: the bid form, the request mail text, splitting of carrier address cells, dispatch to carriers, the upload filter and the carrier-row validation.
- `Reparse`: the request mail's cost lines read back by the offer parser.

## Model

| member | source | states |
|---|---|---|
| Text.Strip | app.py:356 | the result is the input with its leading and trailing whitespace cut off: a slice whose outside is all whitespace and whose ends are not whitespace |
| Text.StripFacts | app.py:356 | a string strips to empty exactly when all its characters are whitespace; every kept character comes from the input |
| Text.StripIdempotent | app.py:356 | stripping twice is stripping once |
| Text.StripTrailingSpaces | app.py:386 | trailing whitespace added to a string does not change what it strips to |
| Text.Find | app.py:350 | `find` returns -1 or a position at or after `from` where the pattern occurs |
| Text.RunEndAt | app.py:380 | a run of a character class ends at the first position outside the class |
| Text.FindFirst | app.py:350-352 | the position `find` returns is the first occurrence at or after `from`; -1 means there is none |
| Text.IndexOf | app.py:614 | the first position of a character, -1 exactly when it is absent |
| Text.Split | app.py:357 | `split` yields at least one piece and no piece contains the separator |
| Text.JoinSplit | app.py:357 | joining the pieces of a split with the separator gives back the string |
| Text.SplitJoin | app.py:488 | splitting a join of separator-free pieces gives back the pieces |
| Text.JoinChars | app.py:488 | a non-separator character is in a join exactly when it is in one of the parts |
| Text.ReplaceChar | app.py:613 | `replace` of one character keeps the length and changes exactly the occurrences of that character |
| Text.RemoveChar | app.py:386 | removing a character leaves none of it and changes nothing when it is absent |
| Text.RemoveCharAppend | app.py:386 | removing a character distributes over concatenation |
| Text.RemoveCharSingle | app.py:386 | on one character, `replace(c, '')` deletes it when it is `c` and keeps it otherwise; with RemoveCharAppend this fixes the result of every removal |
| Text.RemoveCharAll | app.py:386 | a string made only of the removed character becomes empty |
| Text.Fold | app.py:317 | case folding maps ASCII capitals to small letters and leaves every other character below U+0400 as it is |
| Text.PySlice | app.py:353 | Python slicing with -1 as end drops the last character; in-range slices are plain subsequences |
| Text.ParseFloat | app.py:387 | on text of ASCII digits, dots and whitespace, `float()` succeeds exactly on a stripped decimal (digits, at most one dot, at least one digit), and its value is not negative |
| Text.LexLeTotal | app.py:701 | the string order used by `min` is total |
| Text.LexLeAntisymmetric | app.py:701 | two strings each at most the other are equal |
| Text.LexLeTransitive | app.py:701 | the string order is transitive |
| Patterns.SearchLeftmost | app.py:316-319 | `re.search` returns the leftmost position where the pattern matches, or none when it matches nowhere |
| Patterns.CapturedMeans | app.py:316-319 | the capture is absent exactly when the pattern matches nowhere, and otherwise is the leftmost match's |
| Patterns.LeftmostUnique | app.py:317 | there is only one leftmost capture |
| Patterns.CapturedIs | app.py:317 | any leftmost capture is what `re.search` returns |
| Patterns.CapturedHas | app.py:317 | a property of every match is a property of the returned capture |
| Patterns.ClassStart | app.py:312-313 | after a run of non-word characters the capture starts at the last position backtracking allows |
| Patterns.GreedyCapture | app.py:312-313 | a capture is a non-empty run of the class; there is none exactly when no start is valid |
| Patterns.LabelledIdAt | app.py:312 | an `ID заявки` match captures a non-empty run of letters, digits, `-` and `_` |
| Patterns.RequestWordIdAt | app.py:313 | a `Заявка` match captures a non-empty run of letters, digits, `-` and `_` |
| Patterns.ShipIdAt | app.py:314 | a `SHIP-\d{8}-\d{4}` match is 18 characters long, all of them id characters whatever the case of `SHIP` |
| Patterns.LiteralIdChars | app.py:314 | text equal to an ASCII literal of id characters, ignoring case, is made of id characters |
| Patterns.StrictOrderAt | app.py:324 | the first order pattern captures at least 8 characters, all letters, digits, `-` or `_` |
| Patterns.OneCharAfter | app.py:325-326 | the two lazy order patterns capture exactly one character of their class |
| Patterns.LazyOrderAt | app.py:325 | the lazy `Номер заказа` pattern captures one letter, digit, `-`, `_`, whitespace or `/` |
| Patterns.EnglishOrderAt | app.py:326 | the lazy `Order Number` pattern captures one character of the same class |
| Patterns.OrderCodeAt | app.py:337 | the loose order code starts with a letter, ends with a digit, has at least six characters, all letters, digits, `-` or `_` |
| Patterns.RateAt | app.py:341 | a rate match has a non-empty amount of digits, commas and dots and a three-letter currency |
| Patterns.ConditionsAt | app.py:346-348 | the conditions pattern matches only with an empty capture |
| Patterns.AmountAtIsGreedyMatch | app.py:380 | the cost-line regex matches exactly when an amount run ends in whitespace before three capitals; it returns the longest such run |
| Parser.RequestId | app.py:311-320 | the request id is made only of letters, digits, `-` and `_` |
| Parser.IdCapture | app.py:317 | a capture of a pattern whose matches are id characters is made of id characters |
| Parser.RequestIdMeans | app.py:311-320 | the request id is the leftmost capture of the first id pattern that matches anywhere, else empty |
| Parser.LabelledOrderNumber | app.py:323-333 | the order number is the placeholder "—" or made only of the order patterns' characters |
| Parser.OrderCapture | app.py:331 | the stripped capture of an order pattern keeps only that pattern's characters |
| Parser.LabelledOrderNumberMeans | app.py:323-333 | the order number is the stripped capture of the first order pattern that matches, else "—" |
| Parser.OneCharNotPlaceholder | app.py:325-333 | a one-character capture never strips to "—" |
| Parser.OrderNumberMeans | app.py:334-339 | the loose code search replaces the order number only when the ladder left "—" |
| Parser.OrderNumber | app.py:334-339 | the final order number is "—" or made only of order-number characters |
| Parser.RateAndCurrency | app.py:341-344 | the stored rate holds only digits and dots; the currency is empty or three letters |
| Parser.RateDigits | app.py:343 | the captured rate with commas turned into dots and stripped holds only digits and dots |
| Parser.RateAndCurrencyMeans | app.py:341-344 | a currency is set exactly when the rate pattern matches; rate and currency come from its leftmost match, the rate with commas turned into dots and stripped |
| Parser.RateAndCurrencyShape | app.py:341-344 | the stored rate has no comma; a set currency has three letters; no match leaves both empty |
| Parser.Conditions | app.py:346-348 | the conditions field is always empty |
| Parser.SplitLastPiece | app.py:284 | the last piece of a split is the whole string, or what follows the last separator |
| Parser.LooksLikeSmtpMeans | app.py:284 | a sender address is used as is exactly when it has an `@` and a dot after its last `@` |
| Parser.SenderEmail | app.py:282-295 | a plain SMTP address is kept; otherwise an SMTP fallback containing `@` replaces it |
| Parser.CostSection | app.py:350-354 | a cost section exists exactly when the body contains "Расчет стоимости" |
| Parser.CostSectionBounds | app.py:350-354 | the section runs from the heading to the first later "Условия оплаты", or to one character before the end when that is absent |
| Parser.NonBlankLines | app.py:357 | the kept lines are non-empty and stripped |
| Parser.SectionLines | app.py:357 | no section line contains a newline |
| Parser.CleanAmount | app.py:386 | a cleaned amount holds neither a space nor a comma |
| Parser.CleanAmountMeans | app.py:386 | cleaning works character by character: a space is dropped, a comma becomes a dot, anything else stays, in order |
| Parser.ItemEntry | app.py:368-392 | an entry for a catalogue item needs the line to start with that item; its cost is not negative and its currency has three letters |
| Parser.ItemEntryMeans | app.py:368-392 | an item's entry is its name, the `float()` of the leftmost amount capture with spaces removed and commas made dots, and the captured currency; a line starting with the item whose amount parses does yield that entry, and one with no match yields none |
| Parser.LineOfItem | app.py:368-369 | a line starting with a catalogue name yields what that item yields |
| Parser.CostLineExample | app.py:373 | the line "Sea freight            1 470,50     USD" yields Sea freight, 1470.5, USD |
| Parser.AmountCurrencyLength | app.py:380-382 | the captured currency is three upper-case ASCII letters |
| Parser.FirstItem | app.py:368-369 | the first catalogue item the line starts with, or none when no item is a prefix |
| Parser.FirstSome | app.py:368-392 | the first present value of a list, with every earlier one absent; nothing exactly when none is present |
| Parser.FirstItemEntry | app.py:368-392 | the first item entry over the catalogue is some item's entry with every earlier item yielding nothing |
| Parser.LineEntry | app.py:367-402 | a line yields the entry of the first catalogue item that yields one, and nothing only when no item does |
| Parser.LineEntryOfPrefixItem | app.py:367-402 | a line yields the entry of the first item it starts with, or nothing |
| Parser.LineEntryWellFormed | app.py:367-402 | an entry names a catalogue item the line starts with and has a non-negative cost |
| Parser.CostEntriesAppend | app.py:367 | each line contributes its entries independently of the others |
| Parser.CostEntriesWellFormed | app.py:367-397 | every entry is well formed, and every line that yields an entry contributes it |
| Parser.SectionCosts | app.py:357-397 | every entry of a section names a catalogue item with a non-negative cost and a three-letter currency; there are at most as many as lines after the heading |
| Parser.MatchLine | app.py:368-402 | the item loop over one line returns that line's entry |
| Parser.ExtractCosts | app.py:367-397 | the line loop, after skipping the heading line, collects exactly the entries of the remaining lines |
| Parser.OfferOf | app.py:296-309 | a body yields an offer exactly when it contains the cost heading; the new offer has status New and no stamp |
| Parser.AcceptedWithoutRequestId | app.py:403-405 | an offer with an empty request id is still accepted |
| Parser.PassOffersAreNew | app.py:278-405 | the offers one pass collects are all New and unstamped, at most one per message |
| Parser.MailItem.constructor | app.py:278-280 | a mail item holds its message and unread flag |
| Parser.OfferStore.constructor | app.py:406-409 | the store starts with the given offers |
| Parser.ParseOffer | app.py:280-405 | parsing one message gives that message's offer |
| Parser.Ingest | app.py:278-409 | an unread message with a cost section adds its offer to the store and is marked read; every other message is untouched; the store grows by exactly the new offers, in order |
| Comparison.RatesFor | app.py:93-103 | fetched rates are used as given; without them, 90 for USD and 100 for EUR |
| Comparison.ToRub | app.py:668-673 | currencies other than USD and EUR pass through unconverted; a non-negative amount at non-negative rates converts to a non-negative value |
| Comparison.EntryOf | app.py:665-679 | an item's table entry holds its cost (0 when missing), currency ("" when missing) and rouble value |
| Comparison.Total | app.py:666-674 | the total is 0 when no line is counted, and not negative for non-negative amounts and rates |
| Comparison.ItemTable | app.py:675-679 | every key of the table is a counted line's item, holding the entry of one of its lines |
| Comparison.TotalSingle | app.py:666-674 | one cost line adds its rouble value when it names an item, else nothing |
| Comparison.TotalAppend | app.py:674 | the total distributes over concatenation of cost lists |
| Comparison.ItemTableKeys | app.py:675-679 | the table has a key exactly for the item names of counted cost lines |
| Comparison.ItemTableLastWins | app.py:675-679 | an item's entry is that of its last counted cost line |
| Comparison.SummaryStep | app.py:666-679 | one more cost line adds its rouble value to the total and, when counted, sets its item's entry |
| Comparison.Summarise | app.py:662-679 | the cost loop returns the total and the item table |
| Comparison.Truncate | app.py:707-710 | `s[:n]`: the input when it has at most n characters, else exactly its first n |
| Comparison.TruncateIdempotent | app.py:707-710 | truncating twice is truncating once |
| Comparison.DisplaySender | app.py:706-708 | the grid's carrier cell is the sender when short enough, else exactly its first 20 characters |
| Comparison.DisplayDate | app.py:709-711 | the grid's date cell is the date when short enough, else exactly its first 10 characters |
| Comparison.DisplaySenderCollides | app.py:706-708 | two senders agreeing on their first 20 characters show the same carrier cell |
| Comparison.CompareOffers | app.py:660-694 | one comparison row per offer, in order |
| Comparison.Marked | app.py:713-718 | the marked column has one cell per row |
| Comparison.LeastTotalExists | app.py:701 | a request with rows has a least total string |
| Comparison.GroupHasMinimum | app.py:714 | every request's group has a row holding its minimum |
| Comparison.MarkedStarsEveryGroup | app.py:713-718 | every request gets at least one starred row |
| Comparison.MarkedTiesAlike | app.py:713-718 | rows of one request with equal totals are both starred or both not |
| Comparison.GroupMin | app.py:714 | the minimum total string of a request is one of its rows' totals and at most every other |
| Comparison.MinimumRows | app.py:715 | a row of the request equals the minimum exactly when its total is a group minimum |
| Comparison.GroupMinAgrees | app.py:713-718 | starring other requests does not change a request's minimum |
| Comparison.StarRows | app.py:715-718 | exactly the request's rows equal to the minimum get the star; other cells are unchanged |
| Comparison.StarRowsMarks | app.py:713-718 | one group's starring extends the marked part by that group |
| Comparison.MarkedForAll | app.py:713 | once every request is done, the column is the marked column |
| Comparison.MarkGroup | app.py:714-718 | marking one request's group keeps the loop invariant |
| Comparison.MarkBest | app.py:713-718 | the loop over requests turns the total column into the marked column: within each request, every row equal to its least total string is starred, ties included, and nothing else changes |
| Comparison.StringMinimumStarsDearer | app.py:713-718 | with totals "9.00 ₽" and "10.00 ₽" the star goes to the 10-rouble row |
| Comparison.MarkedByAmount | app.py:713-718 | amount ranking keeps one cell per row |
| Comparison.CheapestExists | app.py:701 | a request with rows has a least amount |
| Comparison.GroupHasCheapest | app.py:701 | every request's group has a cheapest row |
| Comparison.MarkedByAmountStarsCheapest | app.py:713-718 | ranking by amount stars a row exactly when its amount is its request's least, and stars at least one row per request |
| Reconcile.GridRows | app.py:829-832 | one grid row per comparison row, with its request id, carrier cell and chosen status |
| Reconcile.GridSendersShort | app.py:706-708 | every carrier cell of the grid holds at most 20 characters |
| Reconcile.StatusMap | app.py:829-832 | each key of the status lookup is a grid row's key and holds that row's status |
| Reconcile.StatusMapKeys | app.py:829-832 | the status lookup has a key exactly for the grid rows' keys |
| Reconcile.StatusMapLastWins | app.py:829-832 | for a repeated key, the last grid row's status wins |
| Reconcile.BuildStatusMap | app.py:829-832 | the loop over grid rows builds the status lookup |
| Reconcile.Run | app.py:834-877 | the pass writes one offer per stored offer, and successes never exceed attempts |
| Reconcile.Step | app.py:835-877 | one offer's step appends its saved offer; a send is attempted exactly when the offer moves into Отклонено or Принято outside the one-minute window and its sender was not told yet; a stamp, a told sender and a success come only from a send that goes through |
| Reconcile.RunSaved | app.py:834-877 | each written offer has its grid status (or its own when unkeyed), other fields unchanged, and a new stamp only after a notification |
| Reconcile.NotifiedStep | app.py:855-874 | a sender is told in the pass exactly when one of its offers was stamped |
| Reconcile.OneStampStep | app.py:855-874 | one step keeps at most one stamped offer per sender |
| Reconcile.RunNotified | app.py:825-874 | told senders are exactly the stamped ones, each stamped once, and the success count equals the number told |
| Reconcile.RunAllDelivered | app.py:840-874 | when every send succeeds, a sender is told exactly when one of its offers moves into Отклонено or Принято outside the one-minute window |
| Reconcile.RunNoneDelivered | app.py:870-876 | when every send fails, statuses still change but no offer is stamped and no one is told |
| Reconcile.RepeatWithinMinute | app.py:843-853 | an offer stamped by one save does not qualify for a send in a save less than a minute later, so no send is attempted and no stamp moves |
| Reconcile.RunSnoc | app.py:834 | the pass over one more offer is one more step |
| Reconcile.SaveStatuses | app.py:820-879 | the save handler computes the pass: updated offers in order, senders told, attempts and successes |
| Reconcile.Purge | app.py:890-899 | purge keeps exactly the stored offers whose key is not a rejected grid key |
| Reconcile.PurgeAppend | app.py:896-899 | purge keeps order: it distributes over concatenation |
| Reconcile.PurgeUsesGridOnly | app.py:890-899 | an offer is removed exactly when a grid row with its key says Отклонено, whatever the stored status |
| Reconcile.LongSenderUnreached | app.py:706-707 | an offer whose sender is longer than 20 characters is never changed by a save and never purged |
| Reconcile.KeyedGridRows | app.py:829-832 | a grid keyed by full senders has each offer's own key and chosen status |
| Reconcile.KeyedGridReachesEveryOffer | app.py:829-899 | with full senders in the grid, every offer receives its chosen status, and a rejected one is purged |
| Contract.SelectOffer | app.py:749-754 | the first stored offer whose key equals the selected row's, none exactly when no offer has that key |
| Contract.SelectBid | app.py:757 | the first bid with the offer's request id, none exactly when no bid has it |
| Contract.LongSenderNotSelectable | app.py:749-754 | an offer whose sender is longer than 20 characters is never selected for a contract |
| Contract.CarrierInfo | app.py:164-175 | the profile is the first row with exactly the carrier's name, or empty when there is none or no workbook |
| Contract.CarrierEmail | app.py:189 | the contract email is the profile's `email` when it has one, else the offer's sender address |
| Contract.BaseContext | app.py:191-227 | the context starts with the bid's id, the date, the carrier, the email fallback, the ten bid details and the thirteen profile cells copied, and 0 with "" in the three cost fields |
| Contract.SlotOf | app.py:231-239 | a line fills no field exactly when its item contains none of the three labels; a filled field's label is in the item; "Pre-carriage" wins over the other two and "OTHC" over "Sea freight" |
| Contract.FieldOf | app.py:231-239 | a matching cost line writes its cost (0 when missing) and its currency ("USD" when missing) |
| Contract.Filled | app.py:229-239 | a cost field holds its starting value or what some line for it wrote |
| Contract.FilledIsLastMatch | app.py:229-239 | a cost field holds the last cost line whose item selects it |
| Contract.FilledUntouched | app.py:207-212 | a cost field no line selects keeps its initial value |
| Contract.PreCarriageShadows | app.py:230-232 | an item containing "Pre-carriage" fills only the pre-carriage field, even when it also contains "OTHC" |
| Contract.ContextFor | app.py:191-239 | the context has the bid's id, the carrier, the date, the email fallback, the bid details and profile cells copied, and each cost field filled from the offer |
| Contract.ContextDefaults | app.py:207-212 | a cost field no offer line selects stays at 0 and "" |
| Contract.BuildContext | app.py:191-239 | the context loop builds the context |
| Contract.Basename | app.py:247 | the base name is the longest separator-free suffix of the path: it is the whole path or follows a separator |
| Contract.StoredPathPlain | app.py:243-247 | without separators in id and sender, the stored path is `contracts\contract_<id>_<sender>.docx` |
| Contract.EntryFor | app.py:250-257 | a log entry holds the bid id, the offer's id, the carrier, the time, the stored path and "generated" |
| Contract.ContractLog.constructor | app.py:249 | the log starts with the loaded entries |
| Contract.ContractLog.Record | app.py:249-257 | recording appends exactly one entry for the contract |
| BidRequest.SubmitBid | app.py:570-593 | a bid is made exactly when every required field is filled; it has the form's id, order number, time, status "Новая", details, and one cost per catalogue item from the form |
| BidRequest.HeaderLines | app.py:427-448 | the header of the request mail has 21 lines, the last being "Расчет стоимости:" |
| BidRequest.CostFor | app.py:461-462 | the cost shown for an item is the first bid cost with exactly that item, else 0.0 USD |
| BidRequest.CostLines | app.py:460-464 | one cost line per catalogue item |
| BidRequest.FooterLines | app.py:466-471 | the footer has four lines: payment terms second, "Примечания:" last |
| BidRequest.MailLines | app.py:423-488 | the mail has its header, the seven cost lines, the footer, then the indented texts: "Расчет стоимости:" is line 20, payment terms line 29 and "Примечания:" line 31 |
| BidRequest.AppendIndented | app.py:474-485 | the loop over a text's lines appends its non-blank lines indented |
| BidRequest.FormatBidEmail | app.py:423-488 | the mail text is the mail's lines joined with newlines |
| BidRequest.MailCostLine | app.py:460-464 | line 21+i of the mail is catalogue item i with its first matching bid cost or 0.0 USD |
| BidRequest.CatalogueDistinct | app.py:451-459 | the catalogue items are pairwise distinct |
| BidRequest.SubmittedMailShowsFormCosts | app.py:540-566 | for a submitted form, line 21+i of the mail shows the amount and currency entered for item i |
| BidRequest.DescriptionUnderNotes | app.py:445-485 | "Описание груза:" stays at line 17 with the loading address under it; the description lines follow "Примечания:" at line 31 |
| BidRequest.IndentedLinesSound | app.py:476-478 | every emitted line is a non-blank source line with a two-space indent |
| BidRequest.IndentedSound | app.py:474-485 | every indented line of a text comes from one of its non-blank lines |
| BidRequest.IndentedComplete | app.py:474-485 | every non-blank line of a non-empty text is emitted |
| BidRequest.Addresses | app.py:611-614 | an empty cell lists no address; every listed address is a non-empty piece of the normalized cell |
| BidRequest.AddressesClean | app.py:611-614 | every address split from a cell is non-empty, stripped and free of `,`, `;` and `:` |
| BidRequest.NormalizedIdentity | app.py:613 | a cell without `;` or `:` is left as it is |
| BidRequest.AddressesJoin | app.py:611-614 | clean addresses joined with commas split back into the same addresses |
| BidRequest.AddressesWhere | app.py:608-614 | every gathered address passes the test and is non-empty |
| BidRequest.AddressesWhereMembers | app.py:608-622 | an address is gathered exactly when it passes the test and comes from some carrier's cell |
| BidRequest.AddressesWhereSnoc | app.py:608 | one more carrier adds its cell's passing addresses at the end |
| BidRequest.SuccessCount | app.py:617-618 | the success count never exceeds the attempts |
| BidRequest.SuccessCountExtremes | app.py:617-618 | all sends succeeding counts every attempt; none succeeding counts zero |
| BidRequest.SuccessCountPositive | app.py:631-636 | the count is positive exactly when some attempt succeeded |
| BidRequest.SendToCarrier | app.py:615-621 | one carrier's addresses with `@` are sent to in order, the others warned about, and the count follows the outcomes |
| BidRequest.NotifyCarriers | app.py:608-622 | the loop sends to exactly the gathered addresses with `@`, warns about the rest, and counts successes |
| BidRequest.SentExactly | app.py:608-622 | an address is sent to exactly when it contains `@` and comes from some carrier's cell |
| BidRequest.SizeSumSnoc | app.py:534 | adding a file adds its size to the total |
| BidRequest.FilterUploads | app.py:528-538 | files over 15 MiB are dropped; the others are kept in order with their total size; the total flag only reports going over 15 MiB |
| BidRequest.OverTotalDropsNothing | app.py:537-538 | two 10 MiB files are both kept even though their total goes over the limit |
| BidRequest.InvalidRows | app.py:951-954 | at most one number per row; each is the 1-based number of a row missing a name, an email or an `@` |
| BidRequest.InvalidRowsExact | app.py:951-954 | the invalid row numbers are exactly the 1-based rows missing a name, an email or an `@`, in ascending order |
| BidRequest.NoInvalidRows | app.py:955 | no invalid row is reported exactly when every row is valid |
| BidRequest.CheckCarrierRows | app.py:951-955 | the check returns the invalid rows, and saves exactly when every row is valid |
| BidRequest.AcceptedRowIsSentTo | app.py:952-954 | a carrier row that passes the check has at least one address with `@` |
| Reparse.DecimalChars | app.py:386-387 | a literal `float()` accepts here holds only digits and dots |
| Reparse.AmountOfTail | app.py:380-382 | in ": <amount> <currency>" the cost regex captures the space and amount, and the currency |
| Reparse.CleanAmountOfLiteral | app.py:386 | cleaning the captured text gives back the decimal literal |
| Reparse.ParseLiteral | app.py:387 | `float()` reads a decimal literal as its value |
| Reparse.ItemEntryOfText | app.py:368-392 | item i yields its own name, the literal's value and the currency for a line written as the request mail writes it |
| Reparse.CostTextReparses | app.py:356-392 | a request-mail cost line is its own strip and reads back as its item, amount and currency |
| Reparse.MailCostLineReparses | app.py:460-464 | line 21+i of the request mail reads back through the cost-line parser as catalogue item i with the amount and currency the mail shows |

## Left out

- The user interface (forms, grids, buttons, messages, pauses) is not modelled. Its inputs are parameters: the form values, the edited grid's rows and statuses, and the uploaded file sizes.
- Outlook is not modelled: folder lookup, `send_email`, and the `PropertyAccessor` SMTP lookup are foreign calls. The SMTP fallback address is an optional parameter, and each send outcome is taken in turn from a `seq<bool>`.
- The HTTP rate fetch, its cache and the rate widget are network calls and display. `Comparison.RatesFor` takes the fetched rates as an optional value.
- JSON and Excel persistence is I/O. Stored offers, bids, carriers and the contract log are sequences passed in and returned; the carrier workbook is an optional list of rows.
- Template rendering, the temporary contract file and its copy are library calls and file I/O. The model stops at the context, the stored path and the log entry.
- Floating-point arithmetic and the `:.2f` and `str(float)` formatting are not modelled. Amounts are `real`, the comparison's total strings are given, and the mail's amount text comes from a `show` function parameter.
- The bid-id filter of the comparison view (app.py:699) uses pandas' regular-expression `contains`, which is not modelled.
- `datetime.now()` and `fromisoformat` are not modelled. The clock is a number of seconds; a stored stamp is missing, unreadable or a number of seconds; the dates the contract uses are string parameters.
- Missing table cells (NaN) in the grids and the workbook are not modelled. Cells are strings, and a profile is a map from column name to string.
- `Contract.Basename` treats `/` and `\` as separators but not drive letters.
- Text.Fold: case-insensitive matching folds only the ASCII capitals and the Cyrillic capitals U+0400–U+042F. The Cyrillic case pairs from U+0460 up (such as Ѣ/ѣ and Ґ/ґ) are not folded, nor are Python's further equivalences ſ~s, ı~i, İ~i and the Kelvin sign ~k. The program does fold them: under `re.IGNORECASE` the literals `SHIP` and `ID` also match "ſHIP" and "ıD", and the classes `[A-Za-z0-9\-_]`, `[A-Z0-9]`, `[A-Z]{2,}` and `[A-Z]{3}` also accept ſ, ı, İ and the Kelvin sign. So a mail holding "ſHIP-20240101-1234" gets a request id from the program and none from the model.
- `\w` covers ASCII letters, digits, `_` and Cyrillic letters. Other Unicode letters are treated as non-word characters.
- Text.ParseFloat: it accepts ASCII digits only, and so does the model's `\d`. The program's `\d` and `float()` accept every Unicode decimal digit, so "Sea freight ١٢٣ USD" yields 123.0 USD in the program and no entry in the model.
- The outer `except` of the Outlook pass (app.py:416-418) is not modelled. The model's messages are always readable, so a failure part-way through the pass is absent: in the program the messages already processed stay marked read, the pass returns [] and their offers are never saved.
- Mapping catalogue items to contract slots: no lemma ties the catalogue names to the three slots.
- Statuses are the four grid values. Other stored texts in the status field are not modelled.
- Reparse.MailCostLineReparses: the round trip is proved line by line, for amounts shown as decimal literals (`str(float)` may also print an exponent); that the cost section of a whole reply to the request mail holds exactly these seven lines is not proved.
- BidRequest.NotifyCarriers: the success count counts addresses, not carriers, as the source does. The reported message calls them carriers; the model does not claim that.
- Temporary attachment files and their removal are file I/O.
- The grid's row numbers for the carrier check are taken as positions 1..n, which assumes the default row index.

## Findings

| source | as written | input that shows it | evidently intended | confidence | as-written member | corrected member |
|---|---|---|---|---|---|---|
| app.py:701-718 | the best offer of each request is the least total STRING, compared character by character | totals "9.00 ₽" and "10.00 ₽" for one request: the star goes to the 10-rouble row | star the row with the least rouble amount | not executed | Comparison.StringMinimumStarsDearer | Comparison.MarkedByAmountStarsCheapest |
| app.py:706-707, 829-832, 890-899 | the grid key uses the carrier cell cut to 20 characters, while stored offers are looked up with the full sender | an offer whose sender has 21 characters: saving never changes its status and purge never removes it | key the grid by the full sender | not executed | Reconcile.LongSenderUnreached | Reconcile.KeyedGridReachesEveryOffer |
