# Daily sales report: a verified model of the outlet ledger

The application is a one-page report builder for a beverage sales officer. The officer
keeps a ledger of the outlets visited on the beat, one record per outlet:
- name and contact;
- productive flag;
- cases sold per catalogue product.

The ledger is filled in four ways:
- one outlet at a time;
- by pasting name/contact rows copied from a spreadsheet;
- by pasting invoice or WhatsApp text, which is reconciled against the outlets;
- by editing the outlet cards.

Two report tables are derived from the ledger:
- F2, one row per outlet with its total cases and value;
- F1, the day split into three time slots.

This project models that core in Dafny and proves what it promises.

- `Text` covers JavaScript's `\s`, `\d` and line terminators, plus `toLowerCase`, `trim` and `includes`.
- `Catalogue` holds the constants: the reporting names, the twelve catalogue products with their prices, and the three time slots.
- `Split` is `String.prototype.split` for the separators the application uses:
  - a single character;
  - the line break `/\r?\n/`;
  - the case-insensitive invoice marker `/FY25-|Invoice|Bill No/i`.
- `Quantity` is the quantity parser (`parseQuantity`) and the bottle-to-case conversion.
- `Identity` is `normalize` and the rule that picks the transaction block an outlet owns.
- `Scanner` is the SKU pattern, run with `matchAll` over one block. It is written as a scanner that finds:
  - the label, without regard to case;
  - the first digit on the same line;
  - an optional `+ bonus`;
  - an optional unit word, tried in the pattern's order.
- `Rounding` is `Math.round` and `parseFloat(x.toFixed(2))` on exact reals.
- `Outlets` is the outlet record and the pure meaning of every change to the outlet list.
- `Ledger` is the application state as a class. Its handlers are methods, and its loops are proved against the functions of `Outlets`:
  - the per-product reset and refill;
  - the per-outlet reconciliation;
  - the row reader of the bulk paste.
- `Reports` is the F2 rows and the F1 time-slot split.

The model follows the code as written:
- there is no minimum block length;
- pasted invoice text never creates outlets;
- a matched outlet's quantities are overwritten, not added to.

## Model

| member | source | states |
|---|---|---|
| Text.Lower | App.tsx:121 | lower-casing keeps the length and maps each character to its lower-case form |
| Text.LowerIdempotent | App.tsx:121 | lower-casing twice is lower-casing once |
| Text.Trim | App.tsx:80-81 | `trim` never lengthens its input, and its result neither starts nor ends with white space |
| Text.TrimSlice | App.tsx:80-81 | `trim` returns a slice of its input: only white space is cut from either end |
| Text.TrimEmptyIffBlank | App.tsx:63 | `!text.trim()` holds exactly when the text is all white space |
| Text.Contains | App.tsx:172-173 | `includes` holds exactly when the needle occurs at some index of the haystack |
| Catalogue.IdsDistinct | constants.ts:24-37 | catalogue ids are pairwise distinct, so a record keyed by id has one entry per product |
| Catalogue.PricesFollowMatrix | constants.ts:12-37 | every price is positive and equals the pricing matrix of the doc comment (165, 155, 300, 400, 370, 1280, 420) |
| Catalogue.ConversionTargets | constants.ts:24-37 | exactly one id equals `sku_mc2` (MC2) and exactly one id starts with `sku_2l` (2 Ltr) |
| Catalogue.LabelsNonEmpty | constants.ts:25-36 | every label, the anchor of the SKU scan, is non-empty |
| Catalogue.TimeSlotRatios | constants.ts:39-43 | three slots, in order, with ratios 0.3, 0.4, 0.3, adding up to 1 |
| Split.MatchLength | App.tsx:160 | a separator match at the start of a string never runs past the string |
| Split.Parts | App.tsx:160 | `split` always returns at least one part, even for the empty string |
| Split.Split | App.tsx:160 | there is always exactly one more part than separator occurrences |
| Split.SplitJoins | App.tsx:160 | the parts and the dropped separator texts, put back together in order, give the input: nothing is lost and order is kept |
| Split.SplitSeparators | App.tsx:160 | every dropped text is one whole separator match (`FY25-`, `Invoice` or `Bill No` in any case, `\r\n` or `\n`, or the character) |
| Split.SplitPartsFree | App.tsx:160 | no part contains a separator match at any position |
| Split.SplitFirstPart | App.tsx:68 | the first part runs up to the leftmost index at which the separator matches (all of the input when it matches nowhere) |
| Split.SplitAfterFirst | App.tsx:68 | the first separator text is the whole match at that index (`\r\n`, not just `\n`, after a carriage return), and the text after it splits into the remaining parts and separators |
| Quantity.Sanitize | App.tsx:111 | the cleaned string holds only digits and `+`, is no longer than the input, and is the input itself when nothing had to go; a single character is deleted exactly when it is neither a digit nor `+` |
| Quantity.SanitizeConcat | App.tsx:111 | cleaning works character by character: cleaning a concatenation concatenates the cleaned halves, so with the single-character rule every other character is deleted and digits and `+` are kept in order |
| Quantity.LeadingDigits | App.tsx:114-116 | `parseInt` reads the longest run of digits at the start and stops at the first other character |
| Quantity.SumTermsConcat | App.tsx:114 | the `reduce` sum over two lists of terms is the sum of the two sums |
| Quantity.SplitWithoutSeparator | App.tsx:113-116 | a string without `+` splits into itself alone |
| Quantity.SplitAtSeparator | App.tsx:114 | splitting `x + "+" + y` at `+` gives the parts of `x` followed by the parts of `y` |
| Quantity.ParseQuantity | App.tsx:108-118 | both branches of `parseQuantity` agree with one rule: the sum of the integer terms between the `+` signs, each empty term counting 0; the result is always a natural number |
| Quantity.ParseQuantityIgnoresNoise | App.tsx:111 | only the digits and `+` signs of a fragment decide its value |
| Quantity.AdditiveTerms | App.tsx:113-114 | a "primary + bonus" fragment is worth the sum of its two sides |
| Quantity.PaddedDigits | App.tsx:111-116 | a run of digits with white space around it is worth the number the digits spell |
| Quantity.DigitsParse | App.tsx:116 | a run of digits is worth the number it spells |
| Quantity.SpacedSum | App.tsx:107-114 | two runs of digits around a spaced `+` are worth the sum of the two numbers |
| Quantity.SpacedBonusExample | App.tsx:107 | "30 + 3" is 33 |
| Quantity.CompactBonusExample | App.tsx:107 | "30+3" is 33 |
| Quantity.TenExample | App.tsx:107 | "10" is 10 |
| Quantity.NoDigitExample | App.tsx:116 | "abc" is 0 |
| Quantity.BottlesPerCase | App.tsx:203-212 | a case is always 1, 6 or 30 of the unit, so the conversion only ever divides (which product gets which is `CatalogueConversion`) |
| Quantity.ToCases | App.tsx:199-213 | the converted quantity times the bottles per case is the raw quantity, and it is never negative nor more than the raw quantity |
| Quantity.CatalogueConversion | App.tsx:203-212 | over the catalogue, bottles and pieces are divided by 30 for MC2 only, by 6 for 2 Ltr only, and nothing else is ever divided |
| Identity.Strip | App.tsx:121 | deleting white space, `-`, `_` and `.` leaves none of them and leaves a string that had none unchanged |
| Identity.StripConcat | App.tsx:121 | the deletion works character by character |
| Identity.Normalize | App.tsx:121 | the normalized string has no upper-case letter, no white space, `-`, `_` or `.`, and is no longer than the input; a single character that is not deleted becomes its lower-case form, so with NormalizeConcat every kept character stays, lower-cased and in order |
| Identity.NormalizeIdempotent | App.tsx:121 | normalizing twice is normalizing once |
| Identity.NormalizeConcat | App.tsx:121 | normalizing a concatenation concatenates the normalized halves |
| Identity.NormalizeDropsIgnorable | App.tsx:121 | inserting a white-space, `-`, `_` or `.` character does not change the normalized form |
| Identity.NormalizeIgnoresCase | App.tsx:121 | strings that differ only in the case of their letters normalize alike |
| Identity.BlockMatches | App.tsx:170-174 | an outlet owns a block exactly when its normalized contact (longer than 5) or its normalized name (longer than 3) occurs at some index of the normalized block |
| Identity.NameInBlock | App.tsx:167-174 | a block that contains the outlet's name, whatever surrounds it, belongs to the outlet once the normalized name is longer than 3 |
| Identity.FirstMatch | App.tsx:170-174 | `find` returns the first block whose normalized text contains the normalized contact (longer than 5) or name (longer than 3); when it finds none, no block matches |
| Identity.MatchNeedsIdentity | App.tsx:172-176 | a short name and a short contact match no block, and a matched block is never empty, so the truthiness test on it is a found/not-found test |
| Scanner.FirstDigitOnLine | App.tsx:190 | the lazy `.*?` stops at the first digit after the label, unless a line terminator comes first; then there is no match |
| Scanner.DigitsEnd | App.tsx:190 | greedy `\d+` ends at the first non-digit |
| Scanner.SpacesEnd | App.tsx:190 | greedy `\s*` ends at the first non-space |
| Scanner.BonusStart | App.tsx:190 | the bonus part is present exactly when white space, a `+`, white space and a digit follow the primary digits |
| Scanner.QuantityEnd | App.tsx:190 | group 1 runs at least over the primary digits and stays inside the text |
| Scanner.BonusSum | App.tsx:190-196 | digits, white space, `+`, white space, digits parse to the sum of the two numbers |
| Scanner.QuantityValue | App.tsx:190-196 | group 1 is worth the primary count, plus the bonus count when a `+` and a second number follow |
| Scanner.MatchUnit | App.tsx:190 | the unit alternation picks the first alternative, in the pattern's order, that starts the text without regard to case |
| Scanner.MatchAt | App.tsx:190 | a match starts where it is anchored, ends after the label and inside the text, and group 1 starts at a digit |
| Scanner.UnitLength | App.tsx:190 | group 2 is empty exactly when no unit alternative follows, and otherwise spells the chosen alternative in some case |
| Scanner.MatchAtExists | App.tsx:190 | a match exists at an index exactly when the label is there and a digit follows it on the same line |
| Scanner.MatchAtQuantity | App.tsx:190 | group 1 of a match starts at the first digit after the label and runs to the end of the quantity |
| Scanner.MatchAtUnit | App.tsx:190-197 | group 2 is the first unit alternative after the white space following group 1 (or "") and the match ends after it |
| Scanner.Occurrences | App.tsx:190-192 | `matchAll` finds matches that start and end inside the text, each ending after it starts |
| Scanner.OccurrencesMatch | App.tsx:192 | each occurrence found is the pattern's match anchored at its own start |
| Scanner.OccurrencesOrdered | App.tsx:192 | the occurrences do not overlap and come in text order |
| Scanner.OccurrencesCover | App.tsx:192 | no match is missed: every index at which one could start lies inside an occurrence found |
| Scanner.OccurrenceCases | App.tsx:195-213 | one match converted to cases is never negative, and times the unit's divisor (30 for MC2 bottles, 6 for 2 Ltr bottles, else 1) it is the parsed quantity of group 1 |
| Scanner.TotalCases | App.tsx:195-217 | the `reduce` sum of the converted matches is never negative and is 0 for no match |
| Scanner.TotalCasesSingle | App.tsx:195-217 | the sum over one match is that match converted |
| Scanner.TotalCasesAppend | App.tsx:195-217 | the sum over two runs of matches is the sum of their sums, so every match counts exactly once |
| Scanner.SampleLineOccurrences | App.tsx:499 | in the sample line "MC2 YELLOW 30 Btl", the label MC2 has exactly one match, with group 1 "30" and group 2 "Btl" |
| Rounding.MathRound | App.tsx:272 | `Math.round` lands within half a unit of its argument |
| Rounding.ToFixed2 | App.tsx:221 | two-decimal rounding moves a value by at most half a hundredth, keeps its sign, and gives a whole number of hundredths |
| Rounding.ToFixed2Idempotent | App.tsx:221 | rounding to two decimals twice is rounding once |
| Outlets.ZeroSkus | App.tsx:52 | the record of a new outlet has exactly the catalogue ids as keys, all at 0 |
| Outlets.NewOutlet | App.tsx:47-56 | a new outlet carries the given id, name and contact and is not productive |
| Outlets.NewOutletBlank | App.tsx:47-56 | a new outlet is well formed with every product at 0 |
| Outlets.SkuQuantity | App.tsx:192-222 | the quantity stored for a product after a rescan is never negative |
| Outlets.SampleLineCases | App.tsx:203-209 | thirty MC2 bottles convert to exactly one case |
| Outlets.SampleLineTotal | App.tsx:195-217 | the matches of the sample line add up to one case of MC2 |
| Outlets.SampleLineMC2 | App.tsx:192-222 | rescanning the sample line "MC2 YELLOW 30 Btl" stores 1 case of MC2 |
| Outlets.SkuQuantityNearTotal | App.tsx:219-221 | the stored quantity is 0 for a zero total and within half a hundredth of a positive total |
| Outlets.AbsentLabelGivesZero | App.tsx:192-194 | a block in which the label never occurs leaves the product at 0 |
| Outlets.Record | App.tsx:181-184 | a record written product by product has exactly the products' ids as keys |
| Outlets.RecordValues | App.tsx:181-184 | under each product's id the record holds the value written for that product |
| Outlets.Refilled | App.tsx:180-224 | after a rescan the record has its old keys plus the catalogue ids, holds every catalogue product at its scanned quantity, and has no negative value when it had none |
| Outlets.RefilledKeepsOthers | App.tsx:180-224 | a rescan leaves every quantity under an id outside the catalogue as it was |
| Outlets.Blocks | App.tsx:160 | pasted text always gives at least one block |
| Outlets.Claim | App.tsx:167-174 | the block an outlet claims is one of the blocks |
| Outlets.ReconcileOne | App.tsx:165-226 | an outlet keeps id, name, contact and the other text fields; one that claims no block is unchanged; one that claims a block becomes productive with its record rescanned from that block |
| Outlets.Each | App.tsx:165 | the `forEach` over the outlets visits every outlet once: one result per outlet |
| Outlets.EachAt | App.tsx:165 | the result at each position is the outlet there, updated |
| Outlets.EachSnoc | App.tsx:165 | one more outlet at the end adds its update at the end |
| Outlets.CountWhere | App.tsx:163-178 | a counter bumped once per accepted outlet ends at most at the number of outlets |
| Outlets.ReconcileAll | App.tsx:162-228 | the reconciliation adds and removes no outlet |
| Outlets.ReconcileAllAt | App.tsx:162-228 | the reconciled list holds, at each position, the outlet there reconciled |
| Outlets.MatchCount | App.tsx:163-178 | the reported match count never exceeds the number of outlets |
| Outlets.CountProductive | App.tsx:278 | the productive count never exceeds the number of outlets |
| Outlets.CountProductiveSnoc | App.tsx:278 | one more outlet at the end adds one to the count when it is productive |
| Outlets.RefilledIdempotent | App.tsx:180-224 | rescanning a rescanned record from the same block changes nothing |
| Outlets.ReconcileKeepsWellFormed | App.tsx:176-224 | a reconciled outlet still holds exactly one non-negative quantity per catalogue product |
| Outlets.ReconciledQuantities | App.tsx:184-222 | a matched outlet holds, for every catalogue product, what the scan of its block finds |
| Outlets.ReconcileOneIdempotent | App.tsx:165-226 | reconciling an outlet twice against the same text is reconciling it once |
| Outlets.ReconcileAllIdempotent | App.tsx:152-234 | running the auto-fill twice on the same text gives the same ledger as running it once |
| Outlets.ProductiveAfterReconcile | App.tsx:176-177 | afterwards an outlet is productive exactly when it already was or it claims a block |
| Outlets.MatchCountBound | App.tsx:176-178 | every matched outlet is productive afterwards, so the productive count is at least the match count |
| Outlets.ReconcileAllKeeps | App.tsx:162-228 | the reconciliation keeps every id in place, and with it the ids' uniqueness and bound, and keeps every record well formed |
| Outlets.ShortIdentityNeverMatches | App.tsx:172-173 | an outlet with a short name and a short contact is never changed by the auto-fill |
| Outlets.RowFields | App.tsx:73-78 | a row always has at least one column |
| Outlets.IsHeader | App.tsx:84 | a name is a column title exactly when, lower-cased, it contains "name of out let" or is "name"; a title has at least four characters |
| Outlets.HeaderIgnoresCase | App.tsx:84 | column titles are recognised whatever the case of their letters |
| Outlets.ParseRow | App.tsx:80-84 | a row is accepted exactly when its first column is not blank and, trimmed, is no header; an accepted row gives the trimmed first column as name and the trimmed second column, or "" when there is none, as contact |
| Outlets.ParseRowTabbed | App.tsx:73-95 | a row of a trimmed, non-header name, a tab and a trimmed contact is read as exactly that name and contact |
| Outlets.ParseRowHeaderExample | App.tsx:84 | the row "NAME" is skipped |
| Outlets.SeparatorSplits | App.tsx:76 | a row holding the separator splits into at least two columns |
| Outlets.RowFieldsSeparator | App.tsx:73-78 | a row is cut at tabs when it has one, else at `\|` when it has one, else not at all |
| Outlets.ParsedNameTrimmed | App.tsx:80 | an accepted name neither starts nor ends with white space |
| Outlets.Accepted | App.tsx:84-95 | a row contributes one entry when accepted and none when skipped |
| Outlets.Collect | App.tsx:71-96 | the rows contribute at most one entry each |
| Outlets.CollectExactly | App.tsx:71-96 | every entry comes from an accepted row, and every accepted row contributes its entry |
| Outlets.CollectSnoc | App.tsx:71-96 | one more row adds its entry, if any, after the others |
| Outlets.BulkEntries | App.tsx:68-96 | a paste yields at most one entry per line |
| Outlets.Enrol | App.tsx:86-95 | one new outlet per entry |
| Outlets.EnrolAt | App.tsx:86-95 | the k-th new outlet carries the k-th entry's name and contact and the k-th fresh id, is not productive, and starts at 0 |
| Outlets.EnrolAppend | App.tsx:86-95 | enrolling two batches in turn is enrolling them together, the second numbered after the first |
| Outlets.ReadStep | App.tsx:71-95 | reading one more row appends its new outlet, numbered next, exactly when the row is accepted |
| Outlets.EnrolKeeps | App.tsx:99 | appending the new outlets keeps ids unique and below the next free id, and every record well formed |
| Outlets.Remove | App.tsx:461 | deleting keeps exactly the outlets with another id |
| Outlets.RemoveAppend | App.tsx:461 | deleting works piece by piece, as `filter` does: deleting from a concatenation concatenates the filtered pieces, so order and repeats are kept |
| Outlets.RemoveSingle | App.tsx:461 | a single outlet stays exactly when its id is not the deleted one |
| Outlets.RemoveOne | App.tsx:461 | with distinct ids, deleting a listed outlet shortens the list by one |
| Outlets.RemoveNone | App.tsx:461 | deleting an id no outlet has changes nothing |
| Outlets.RemoveKeeps | App.tsx:461 | deleting keeps ids unique and below their bound, and every record well formed |
| Outlets.Toggle | App.tsx:514 | only the productive flag of the outlet with that id flips; everything else is unchanged |
| Outlets.ToggleTwice | App.tsx:514 | toggling twice restores the list |
| Outlets.EditedValue | App.tsx:528 | the stored value is the typed number when it is not negative, and 0 for a negative or unreadable input |
| Outlets.Edit | App.tsx:528 | only the edited product of the outlet with that id changes, to the edited value; every other outlet, field and product is unchanged |
| Outlets.EditKeepsWellFormed | App.tsx:528 | an edit of a catalogue product keeps every record well formed |
| Outlets.EditIdempotent | App.tsx:528 | the same edit twice is the edit once |
| Ledger.ResetQuantities | App.tsx:181 | the reset loop sets every catalogue product of the record to 0 |
| Ledger.FillStep | App.tsx:184-222 | one more product refilled writes a positive value and leaves the reset's 0 for a zero one |
| Ledger.FillQuantities | App.tsx:184-224 | the refill loop over a reset record gives the record with every product at its scanned value |
| Ledger.Rescan | App.tsx:180-224 | reset and refill together give the record rescanned from the block |
| Ledger.RescanCatalogue | App.tsx:180-224 | reset and refill over the catalogue give `Refilled` |
| Ledger.ReconcileOutlet | App.tsx:167-225 | one loop body updates the outlet as `ReconcileOne` does and reports a match exactly when the outlet claims a block |
| Ledger.ReconcileList | App.tsx:162-226 | the loop over the outlets returns the reconciled list and the number of outlets that claimed a block |
| Ledger.ReadPaste | App.tsx:68-96 | the lines of the paste are read into the new outlets of the accepted rows, numbered from the next free id |
| Ledger.ReadRows | App.tsx:68-96 | the row loop returns the new outlets of the accepted rows, in row order, with consecutive fresh ids |
| Ledger.Ledger.constructor | App.tsx:13-25 | the first state: outlet step, no outlets, empty text boxes |
| Ledger.Ledger.ProcessText | App.tsx:152-234 | blank text changes nothing; otherwise the outlets are reconciled against the text's blocks and the match count is reported, and nothing else changes |
| Ledger.Ledger.BulkPaste | App.tsx:62-105 | a blank box or no readable row changes nothing; otherwise the new outlets are appended after the existing ones, the box is cleared and their number is reported |
| Ledger.Ledger.AddOutlet | App.tsx:42-60 | refused when the name or contact box is empty; otherwise one new outlet with the trimmed name and contact is appended and both boxes are cleared |
| Ledger.Ledger.Delete | App.tsx:461 | the outlet list loses the outlets with that id and nothing else changes |
| Ledger.Ledger.ToggleProductive | App.tsx:514 | the outlet with that id has its flag flipped and nothing else changes |
| Ledger.Ledger.EditQuantity | App.tsx:528 | the outlet with that id gets the edited value for the product and nothing else changes |
| Ledger.Ledger.Reset | App.tsx:31-40 | when confirmed: outlet step, no outlets, empty boxes; otherwise nothing changes |
| Ledger.Ledger.Navigate | App.tsx:399 | any step can be reached once there are outlets, and the outlet step always |
| Reports.SumCases | App.tsx:261 | the total cases of a record without negative values is not negative |
| Reports.SumValue | App.tsx:262 | the priced total of a record without negative values, at non-negative prices, is not negative |
| Reports.F2RowOf | App.tsx:260-273 | an F2 row carries its outlet and date, has its total cases within half a hundredth of the sum, and is never negative for a well-formed outlet |
| Reports.F2ValueRounded | App.tsx:272 | an F2 row's value is the priced total rounded to the nearest rupee |
| Reports.F2Data | App.tsx:260-274 | one F2 row per outlet, in order |
| Reports.TotalQuantity | App.tsx:279 | the day's cases are not negative when no F2 row's cases are |
| Reports.TotalValue | App.tsx:280 | the day's value is not negative when no F2 row's value is |
| Reports.DayTotalsNonNegative | App.tsx:279-280 | a day of well-formed outlets has non-negative total cases and value |
| Reports.F1Data | App.tsx:276-300 | three F1 rows in slot order, each with its slot label, the sales person, "OK" and empty kilometre columns |
| Reports.SlotCountsAddUp | App.tsx:282-290 | whatever the rounding, the three slots of a whole-number total add up to it |
| Reports.SlotCasesAddUp | App.tsx:284-289 | whatever the rounding, the three slots of the total cases add up to it |
| Reports.F1Conservation | App.tsx:276-291 | whatever the rounding, the slots' calls, productive calls, cases and value add up to the day's totals |
| Reports.SlotCountNonNegative | App.tsx:282-290 | for whole-number totals under `Math.round`, no slot gets a negative count, the last slot's remainder included |
| Reports.F1CountsNonNegative | App.tsx:276-291 | for well-formed outlets under `Math.round`, every F1 slot has non-negative calls, productive calls and value |
| Reports.LastSlotCanBeNegative | App.tsx:289 | for a fractional total of 1.7 cases, the last slot gets -0.3 cases |

## Left out

- PDF reading (App.tsx:123-150): asynchronous I/O through a foreign library. Its result is part of the pasted text, which the model takes as an input string.
- Spreadsheet import and export (App.tsx:236-258, 310-376): foreign-library I/O and column mapping.
- Rendering, styling and the WhatsApp summary (App.tsx:302-308, 378-662): user interface. The step bar's rule (App.tsx:399) is kept as `Navigate`.
- `alert`, `window.confirm`, `navigator.clipboard` and `console`: side effects with no result, or a result the model takes as a parameter (the confirmation of `Reset`).
- `uuidv4`: ids are numbers handed out by a counter, `nextId`. The `Valid` invariant keeps them fresh and distinct.
- `openingKm`/`closingKm` (App.tsx:28-29): state that no calculation reads.
- Floating point: quantities, prices and ratios are exact reals.
  - `Math.round` and `toFixed(2)` are modelled on reals, halves rounding up (away from zero for `toFixed`).
  - The F1 split takes its rounding as a parameter, so its conservation holds for any rounding.
  - Binary representation errors, such as `0.3 * 10` not being exactly 3, are not modelled.
- Identity.BlockMatches: the length thresholds count characters, while JavaScript's `length` counts UTF-16 code units. A name or contact with characters outside the Basic Multilingual Plane, such as emoji, counts them once here and twice in the code, so the model can reject a short identity that the code accepts.
- The regular-expression engine: the SKU pattern is a hand-written scanner with the same matches on the pattern's own shape. Case folding and `toLowerCase` cover ASCII letters only.
- Outlets.ScanOf: scanning is stated per product, through `SkuQuantity`. `Ledger.FillQuantities` is proved for any non-negative value function, so the loop does not unfold the scanner.
- Aliasing: the reconciliation mutates the outlet objects shared with the previous state through the shallow copy `[...outlets]`. The model builds new outlet values, and the state update is the same.
- Reports.F2RowOf: the total cases sum the catalogue products, while the code sums every value of the record. The two agree for well-formed records, whose keys are exactly the catalogue ids, but that agreement is not proved.
- Reports.F1Data: the `skus` column that F1 rows carry by their type is never filled by the code, so it is not modelled.
