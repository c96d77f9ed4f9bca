# Church ledger — a Dafny model

This project models the in-browser ledger of a church's income and expense
bookkeeping page. The core is the page script `assets/js/church.js`. It holds a list of
entries ("movimientos"), an `autoId` counter, the selected kind (`ingreso` or
`egreso`) and a filter record. It validates and appends entries and deletes them by
identifier. It can clear the whole list, compute the filtered view and its totals,
build the payload it saves, and load a previously saved document. Two smaller pieces
are modelled beside it:

- `assets/js/app-church.js`: the memoised category loader and its module-level
  cache, the unwrapping of the loaded document, and `sanitizeFilename`.
- `api/church-data.js`: the loop that splits spreadsheet rows into the income and
  expense category lists.

Modules, one per concern of the source:

- `Common`: `Option`, `Result`, and the order-preserving subsequence relation.
- `JsStrings`: the JavaScript string built-ins the code relies on. These are `trim`
  and `\s`, `toLowerCase`, `includes`, `<` on strings, and the single-character
  forms of `replace`.
- `StoredDoc`: the shape of a loaded JSON document. Every property the code tests
  with `||` or `Array.isArray` is an `Option`.
- `ChurchMovements`: the entry type, the identifier invariant, delete-by-id and
  `parseNum`.
- `ChurchFilters`: the filter record and `applyFilters`.
- `ChurchTotals`: `calculateTotals`, a method with a loop, proved against a sum
  function.
- `ChurchHydrate`: loading saved items, the save payload and the save/load round
  trip.
- `ChurchEscape`: `escapeHTML`.
- `ChurchLedger`: the class `Ledger`. It holds the closure state of the page script,
  and each event handler that changes that state is a method.
- `AppChurch`: the class `CategoryCache` with `Load`, `UnwrapRecord` and
  `SanitizeFilename`.
- `ChurchData`: `SplitRows`, a method with a loop, proved against `Column`.

Money is integer cents. `fix2` (`Math.round(n * 100) / 100`) is the identity on
cents, so the balance is exactly income minus expense. Clock readings are
parameters: `today` for `hoyISO` and `nowIso` for `updatedAt`. `parseFloat` is also a
parameter, `parse`, and its `None` result stands for `NaN`. So is the HTTP response
that `fetch` would deliver.

Where the code's behaviour may be unexpected, the model follows the code:

- There is no edit operation and no filter on kind.
- Deleting an unknown identifier changes nothing. It is not reported as an error.
- A new entry takes the counter `autoId`, not one past the current maximum.
- "Clear all" restarts the counter at 1, so identifiers can be handed out again
  after a clear. A plain delete never causes that.
- Loading a record without an `items` array keeps the current list. It does not
  empty it.
- A `null` element of `items` makes the whole load fail. Reading its `id` throws,
  and the `catch` around the load leaves the list and the counter as they were.
- Identifiers are not guaranteed unique after a load. An item without an `id` takes
  its position plus one, which can repeat another item's `id`
  (`ChurchHydrate.HydrationCanRepeatIds`).

`ChurchEscape.Unescape` (reading the five entities back) exists only in the model.
It is the partner of `escapeHTML` that shows no information is lost.

## Model

| member | source | states |
|---|---|---|
| `JsStrings.Trim` | assets/js/church.js:163-168 | the trimmed text has no whitespace at either end and is no longer than the input |
| `JsStrings.TrimIsSlice` | assets/js/church.js:163-168 | the trimmed text is one contiguous slice of the input: everything before it and after it is whitespace, and the interior is kept whole |
| `JsStrings.Lower` | assets/js/church.js:216 | `toLowerCase` keeps the length, maps each character on its own, and gives text that is already lower case |
| `JsStrings.LowerConcat` | assets/js/church.js:246-247 | lower-casing the joined text is joining the lower-cased parts |
| `JsStrings.Includes` | assets/js/church.js:248 | the empty text is included in every text, and an included text is never longer than the one it is found in |
| `JsStrings.LexLess` | assets/js/church.js:236-237 | a proper prefix is below the longer string, and nothing is below its own prefix |
| `JsStrings.ReplaceAll` | assets/js/church.js:583-588 | a global replacement whose entity does not contain the replaced character leaves none of it behind |
| `JsStrings.ReplaceFirst` | assets/js/church.js:48 | `replace` with a one-character pattern keeps the length and leaves every other character where it was |
| `JsStrings.TrimIdempotent` | assets/js/app-church.js:86 | trimming twice is trimming once |
| `JsStrings.TrimEmptyIffBlank` | assets/js/church.js:216 | a text trims to '' exactly when every character is whitespace |
| `JsStrings.IncludesAt` | assets/js/church.js:248 | `includes` holds exactly when the needle is the slice of the haystack at some offset |
| `JsStrings.LexLessIrreflexive` | assets/js/church.js:236-237 | no date string is below itself |
| `JsStrings.LexLessTransitive` | assets/js/church.js:236-237 | string `<` is transitive |
| `JsStrings.LexLessTotal` | assets/js/church.js:236-237 | two different strings are ordered one way or the other, so "not below" means "equal or above" |
| `JsStrings.ReplaceAllConcat` | assets/js/church.js:583-588 | a global one-character replacement distributes over concatenation |
| `JsStrings.ReplaceAllKeepsAbsent` | assets/js/church.js:585-588 | a later replacement cannot bring back a character an earlier one removed, because no entity contains `<`, `>`, `"` or `'` |
| `JsStrings.ReplaceFirstChangesFirstOnly` | assets/js/church.js:48 | `replace(',', '.')` changes only the first comma; a text without a comma is unchanged |
| `ChurchMovements.MaxId` | assets/js/church.js:94 | the result is the identifier of some entry and no entry's identifier exceeds it |
| `ChurchMovements.NextId` | assets/js/church.js:94 | the counter set by a load is above every identifier; it is 1 for no entries, otherwise one past an existing identifier |
| `ChurchMovements.AppendKeepsIdsBelow` | assets/js/church.js:189-199 | an entry that takes the counter has an identifier no earlier entry has, and the incremented counter stays fresh |
| `ChurchMovements.WithoutId` | assets/js/church.js:394 | no remaining entry carries the identifier; every entry with another identifier remains; exactly the entries that carry it are removed |
| `ChurchMovements.WithoutIdIsSubsequence` | assets/js/church.js:394 | the remaining entries keep their original order |
| `ChurchMovements.WithoutAbsentId` | assets/js/church.js:394 | deleting an identifier no entry carries leaves the list unchanged |
| `ChurchMovements.WithoutIdKeepsIdsBelow` | assets/js/church.js:394 | deleting keeps every identifier below the unchanged counter |
| `ChurchMovements.WithoutIdConcat` | assets/js/church.js:394 | deleting from a concatenation deletes from each part |
| `ChurchMovements.ParseNum` | assets/js/church.js:46-51 | a missing value gives 0; a stored number reads back as itself; a string has its first comma read as a decimal point, and an unparsable one gives 0 |
| `ChurchFilters.BoundFromInput` | assets/js/church.js:214-215 | an empty date box leaves that bound unset; otherwise the bound is the box's text |
| `ChurchFilters.FiltersFromInputs` | assets/js/church.js:213-218 | the stored search text is the trimmed, lower-cased box; each date bound is set exactly when its box is non-empty |
| `ChurchFilters.Haystack` | assets/js/church.js:240-247 | the search text is matched against `evento`, `descripcion`, `categoria` and `tipo`, each lower-cased, joined by single spaces, and that text is already lower case |
| `ChurchFilters.Keeps` | assets/js/church.js:236-251 | with no bound and no search text every entry passes; with the `to` date below the `from` date no entry passes |
| `ChurchFilters.ApplyFilters` | assets/js/church.js:230-253 | every kept entry passes the date and text tests, and every entry that passes them is kept |
| `ChurchFilters.ApplyFiltersIsSubsequence` | assets/js/church.js:235 | the view is an order-preserving subsequence of the list |
| `ChurchFilters.ApplyFiltersIdentityIff` | assets/js/church.js:235-252 | filtering returns the list unchanged exactly when every entry passes |
| `ChurchFilters.ApplyFiltersIdempotent` | assets/js/church.js:230-253 | filtering the view again with the same filter changes nothing |
| `ChurchFilters.NoFiltersShowEverything` | assets/js/church.js:236-251 | with no bound and no search text every entry is shown |
| `ChurchFilters.BlankInputsShowEverything` | assets/js/church.js:213-218 | applying empty date boxes and a blank search box shows every entry |
| `ChurchFilters.ApplyFiltersSound` | assets/js/church.js:236-249 | each shown entry has `from <= fecha` and `fecha <= to` in string order when the bound is set, and the search text occurs in its lower-cased `evento descripcion categoria tipo` |
| `ChurchFilters.ApplyFiltersConcat` | assets/js/church.js:235 | the view of a concatenation is the concatenation of the views |
| `ChurchTotals.SumOfConcat` | assets/js/church.js:273-276 | the sums over a concatenation add up |
| `ChurchTotals.SumOf` | assets/js/church.js:273-276 | the total of one kind is never negative when no amount is negative |
| `ChurchTotals.SumOfAppend` | assets/js/church.js:274-275 | an entry adds its amount to the total of its own kind and nothing to the other |
| `ChurchTotals.SumOfOtherKind` | assets/js/church.js:274-275 | entries of any other `tipo` contribute nothing |
| `ChurchTotals.SumOfSubsequenceBounded` | assets/js/church.js:364-366 | with positive amounts a filtered view's totals are between 0 and the full list's totals |
| `ChurchTotals.CalculateTotals` | assets/js/church.js:269-283 | `ingresos` is the sum over `ingreso` entries and `egresos` the sum over `egreso` entries; `saldo` is exactly their difference |
| `ChurchHydrate.NormalizeItem` | assets/js/church.js:85-93 | each property the stored item holds is kept; a falsy `id` becomes position plus one, `fecha` today's date, `tipo` `ingreso`, and the three texts ''; `monto` is `parseNum` of the stored amount |
| `ChurchHydrate.HydrateItems` | assets/js/church.js:81-98 | a `null` element cancels the load; otherwise entry i is item i normalised at position i, one entry per item, and with today's date known every entry has a non-zero identifier, a date and a kind |
| `ChurchHydrate.Or` | assets/js/church.js:87-92 | the logical-or default gives the stored text when it is truthy and the fallback otherwise, so it is '' only when both are |
| `ChurchHydrate.StoredItem` | assets/js/church.js:415-423 | a saved entry keeps its identifier and its amount as a JSON number |
| `ChurchHydrate.PayloadDoc` | assets/js/church.js:410-429 | the saved document has an `items` array whose i-th element is the i-th entry as stored JSON |
| `ChurchHydrate.NormalizeStoredItem` | assets/js/church.js:84-93 | an entry with a non-zero identifier, a date and a kind loads back unchanged from its stored form |
| `ChurchHydrate.HydratePayloadItems` | assets/js/church.js:82-95 | loading the items of a saved payload succeeds and gives back exactly the saved entries |
| `ChurchHydrate.HydrationCanRepeatIds` | assets/js/church.js:86 | an item without an `id` at position 1 takes identifier 2, the same as an item stored with `id` 2 |
| `ChurchEscape.EscapeHTML` | assets/js/church.js:582-589 | a missing or empty input gives ''; the output contains none of `<`, `>`, `"`, `'` |
| `ChurchEscape.EscapeChain` | assets/js/church.js:583-588 | after the five replacements in source order none of `<`, `>`, `"`, `'` is left |
| `ChurchEscape.EscapeChainConcat` | assets/js/church.js:583-588 | the five replacements act on each part of a concatenation separately |
| `ChurchEscape.EscapeChainIsPerCharacter` | assets/js/church.js:583-588 | replacing `&` first makes the five passes equal to encoding each character on its own |
| `ChurchEscape.EscapeEachAmpersands` | assets/js/church.js:584 | in the per-character encoding every `&` begins one of the five entities |
| `ChurchEscape.EscapeHTMLAmpersands` | assets/js/church.js:582-589 | every `&` in the output of `escapeHTML` begins one of the five entities |
| `ChurchEscape.UnescapeEscapeEach` | assets/js/church.js:583-588 | decoding the per-character encoding gives the input back |
| `ChurchEscape.EscapeHTMLRoundTrip` | assets/js/church.js:582-589 | escaping loses nothing: decoding the output recovers the input |
| `AppChurch.CategoriesFrom` | assets/js/app-church.js:23-37 | a response yields categories exactly when it is a 2xx with a JSON body; a non-array list becomes []; a non-2xx status is reported with its code |
| `AppChurch.ArrayOrEmpty` | assets/js/app-church.js:31-32 | a list that is not an array becomes []; an array is kept as it is |
| `AppChurch.CategoryCache.constructor` | assets/js/app-church.js:7-8 | both cached lists start empty |
| `AppChurch.CategoryCache.Load` | assets/js/app-church.js:14-43 | a fetch happens exactly when both cached lists are empty; otherwise the cached lists are returned; on success the cache equals what is returned; a failure leaves the cache alone |
| `AppChurch.UnwrapRecord` | assets/js/app-church.js:56-60 | any failure or a falsy body gives `{}`; otherwise `d.record` when present, else `d` |
| `AppChurch.UnwrapEnvelope` | assets/js/app-church.js:56 | a document stored under `record` is what loading yields |
| `AppChurch.CollapseSpaces` | assets/js/app-church.js:87 | the result has no whitespace and is no longer than the input |
| `AppChurch.ReplaceUnsafe` | assets/js/app-church.js:88 | the length is kept; each letter, digit, `_`, `-` or `.` stays where it was and every other character becomes `_` |
| `AppChurch.SanitizeFilename` | assets/js/app-church.js:83-89 | a missing or empty input gives ''; the output holds only ASCII letters, digits, `_`, `-`, `.` and is no longer than the input |
| `AppChurch.CollapseNoSpace` | assets/js/app-church.js:87 | a text without whitespace is left unchanged |
| `AppChurch.CollapseRun` | assets/js/app-church.js:87 | a whitespace run after a word becomes exactly one `_` |
| `AppChurch.SanitizeFixpoint` | assets/js/app-church.js:83-89 | a name made only of allowed characters is returned unchanged |
| `AppChurch.SanitizeIdempotent` | assets/js/app-church.js:83-89 | sanitising a sanitised name changes nothing |
| `AppChurch.SanitizeEmptyIffBlank` | assets/js/app-church.js:84-88 | the name is empty exactly when the input is all whitespace |
| `ChurchData.Column` | api/church-data.js:39-49 | a column has at most one name per row, and each name is trimmed and non-empty |
| `ChurchData.Filled` | api/church-data.js:43-48 | a cell counts exactly when it is present and holds a non-whitespace character |
| `ChurchData.ColumnConcat` | api/church-data.js:39-49 | the rows are taken in order: a column of concatenated rows is the concatenation of the columns |
| `ChurchData.ColumnSnoc` | api/church-data.js:40-48 | one more row adds its trimmed cell to the column exactly when the cell is filled |
| `ChurchData.ColumnIsSubsequence` | api/church-data.js:39-49 | a column is an order-preserving subsequence of the trimmed cells of that column |
| `ChurchData.ColumnKeepsFilled` | api/church-data.js:43-48 | every cell with non-blank content appears, trimmed, in its column |
| `ChurchData.SplitRows` | api/church-data.js:34-49 | a non-array `values` gives two empty lists; otherwise `incomes` is column 0 and `expenses` column 1 |
| `ChurchLedger.Ledger.constructor` | assets/js/church.js:32-43 | the page starts with no entries, counter 1, no kind and no filters |
| `ChurchLedger.Ledger.Hydrate` | assets/js/church.js:81-98 | only an `items` array without `null` elements replaces the list, and then the counter is one past its largest identifier; otherwise nothing changes; the invariant holds after |
| `ChurchLedger.Ledger.SetCurrentType` | assets/js/church.js:107-110 | the selected kind becomes the given one |
| `ChurchLedger.Ledger.AddMovement` | assets/js/church.js:162-207 | a draft is accepted exactly when its trimmed date, the selected kind and the category are non-empty and the amount is positive; otherwise the first failing check of date, kind, category, amount is reported and nothing changes; on success exactly one entry is appended, it takes the old counter, and the counter goes up by one |
| `ChurchLedger.Ledger.SetFilters` | assets/js/church.js:213-218 | the filter record becomes the one read from the three boxes |
| `ChurchLedger.Ledger.ClearFilters` | assets/js/church.js:220-228 | the filter record is reset to no bounds and no text |
| `ChurchLedger.Ledger.Visible` | assets/js/church.js:363-364 | the entries on screen keep the list's order, and they are all of it when no filter is set |
| `ChurchLedger.Ledger.Delete` | assets/js/church.js:394 | exactly the entries with that identifier go, the rest keep their order, an unknown identifier changes nothing, and the counter is untouched |
| `ChurchLedger.Ledger.ClearAll` | assets/js/church.js:540-553 | a non-empty list is emptied and the counter restarts at 1; an empty list is left as it is |
| `ChurchLedger.Ledger.SavePayload` | assets/js/church.js:404-429 | nothing is saved for an empty list; otherwise the payload carries the organisation name, the clock reading, the whole unfiltered list and its exact totals |
| `ChurchLedger.SaveLoadRoundTrip` | assets/js/church.js:82-95 | a saved payload read back through the `record` envelope loads without failure to exactly the saved entries, with a fresh counter |
| `ChurchLedger.FailedLoadKeepsLedger` | assets/js/app-church.js:56-60 | a failed or empty load gives a record without `items`, so the list is kept |
| `ChurchLedger.AddThenDelete` | assets/js/church.js:189-199 | adding an entry and then deleting its identifier restores the list, and the counter stays advanced |

## Left out

- DOM and presentation are not modelled: element lookups, `renderTable`, the
  locale formatting in `updateSummary`, the text of `updateFilterStatus`, toolbar
  enabling, `populateCategorySelect`, and the SweetAlert dialogs. `Delete` and
  `ClearAll` model the branch taken once the dialog is confirmed.
- PDF and Excel export are not modelled. They are calls into jsPDF, autoTable and
  XLSX plus a Blob download.
- Network I/O is not modelled: the `fetch` calls, `saveChurchDataToJSONBin`, the
  proxy handlers in `api/jsonbin-save.js` and `api/jsonbin-load.js`, and the Google
  Sheets request and error responses around the loop in `api/church-data.js`. The
  responses are inputs to the model.
- `assets/js/app.js` is not part of this model. It repeats the fetch helpers, and
  its `formatSV` depends on the clock and time zone.
- The startup step at `assets/js/church.js:69-79` that copies the loaded categories
  into the page's own lists is not modelled. Those lists only feed the category
  drop-down.
- The asynchronous empty-payload save fired by "clear all" is not modelled, and
  neither is the ordering of saves against later edits.
- Floating point is not modelled. Amounts are integer cents, so the float sums of
  `calculateTotals` and the `fix2` calls on them are exact here.
- `ChurchLedger.Ledger.AddMovement`: the amount arrives already in cents. The source
  tests `monto > 0` before `fix2`, so a positive amount below half a cent passes
  the test and is stored as 0. The model cannot show this.
- `ChurchHydrate.NormalizeItem`: a loaded `monto` keeps the value `parseNum` gives,
  with no rounding, as in the source. Because the model's parse already yields
  cents, sub-cent stored amounts are not represented.
- `ChurchMovements.ParseNum`: `parseFloat` is the parameter `parse`. Only the
  comma-to-point rewrite and the `null`/`NaN`-to-0 rule are modelled.
- `JsStrings.Lower`: only A to Z are lower-cased. `toLowerCase` also folds
  non-ASCII letters, so a search with accented capitals can match in the browser
  but not in the model.
- Strings are sequences of Unicode characters, while JavaScript uses UTF-16 code
  units. This matters for a character outside the Basic Multilingual Plane:
  `sanitizeFilename` turns it into two `_` in the browser and one here, and string
  `<` compares by code point here rather than by code unit.
- Stored properties of the wrong JSON type are not modelled. Examples are a numeric
  `fecha` or a string `id`. A truthy non-object `record` reads as a document
  without `items`, which has the same effect. An element of `items` that is a number
  or a string reads as an item with no properties, because property access on it
  gives `undefined`. Only a `null` or `undefined` element throws, and that case is
  modelled.
- In `loadChurchCategories`, the elements of the `incomes` and `expenses` arrays
  are taken to be strings. A body that is not JSON and a `null` body are treated
  alike, as a rejected load.
