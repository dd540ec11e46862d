# Stock page product catalog, modelled in Dafny

The stock page keeps one ordered list of product records, each holding
`nombre` (name), `precio` (price) and `cantidad` (quantity), in the global
`productos`. At page load the list is read from the browser's local storage;
an absent value gives the empty list. The page has four handlers:

- **add** checks its three inputs. If they pass, it appends a record, writes the whole list back to storage and redraws the table.
- **delete** calls `splice(index, 1)` on the full list, writes it back and redraws.
- **search** redraws the table with only the records whose lower-cased name includes the lower-cased query.
- **the total** is the sum of price × quantity over the full list, shown under the table.

The project has two files:

- `text.dfy` (module `Text`) models the two string built-ins that search uses: `toLowerCase`, as a per-character map passed in by the caller, and `includes`.
- `stock.dfy` (module `Stock`) holds the pure parts: the total, the removal that `splice` performs and the filter. They are functions with lemmas. The page itself is the class `Stock.Inventory`, which has these fields:
  - `productos`: the list.
  - `stored`: a ghost field for the value under the storage key.
  - `rows`: the table body. Each row is the record it shows plus the index its delete button passes.
  - `shownTotal`: the total shown under the table.

  Each handler is a method, and its postcondition states the new state in full. The invariant `Valid()` holds after every handler. It says three things:
  - reloading the page gives back the current list;
  - the shown total is the total of the full list, whatever search is active;
  - every row shows a record of the list and passes an index inside it.

Row indices point into the wrong list after a search. The search view numbers its rows 0, 1, … within the filtered result. The delete handler, however, splices the full list. So the delete button of row k in a search view removes the k-th record of the full list. That is not necessarily the record the row shows. `SearchRowsTargetFullIndex` states this in general. `SearchRowDeletesOtherRecord` gives a concrete case: with the records "pan" and "leche", the query "leche" shows only "leche", and pressing its delete button removes "pan". The model keeps the code's behaviour. `Positions` gives the full-list index of each search result.

Facts about the code that the model keeps:
- The code has no edit/update operation, no confirmation prompt before delete and no seeding of default records.
- The code does not check that price or quantity is non-negative.
- A stored value that is not valid JSON makes `JSON.parse` throw. It is not treated as an empty list.
- A negative delete index counts back from the end of the list, as `splice` does.

## Model

| member | source | states |
|---|---|---|
| `Text.Lower` | scripts/script.js:67-68 | `toLowerCase`: the string with each character put through the caller's lower-casing map; same length, and the empty string stays empty |
| `Text.Includes` | scripts/script.js:68 | `includes`: the query is a prefix of the name or of some suffix of it, scanned left to right; a query longer than the name is never included |
| `Text.IncludesIff` | scripts/script.js:68 | the `includes` scan succeeds exactly when the query occurs at some position of the name |
| `Text.IncludesOccursAt` | scripts/script.js:68 | whatever the `includes` scan finds is an occurrence of the query at some position |
| `Text.OccursAtIncludes` | scripts/script.js:68 | an occurrence at any position is found by `includes` |
| `Text.IncludesEmpty` | scripts/script.js:68 | every name includes the empty query |
| `Stock.Value` | scripts/script.js:49 | one record's contribution to the total, precio × cantidad; zero when either is zero |
| `Stock.Total` | scripts/script.js:49 | the `reduce`: a left fold of precio × cantidad from 0 over the full list; 0 for the empty list, and never negative when no record's value is negative |
| `Stock.TotalAppend` | scripts/script.js:49 | appending a record raises the reduce total by exactly its price × quantity |
| `Stock.TotalConcat` | scripts/script.js:49 | the total of two lists joined is the sum of their totals |
| `Stock.TotalSplit` | scripts/script.js:49 | taking one record out from between two lists lowers the total by exactly its price × quantity |
| `Stock.TotalRemove` | scripts/script.js:49 | removing the record at k lowers the total by exactly that record's price × quantity |
| `Stock.Accepts` | scripts/script.js:20 | the add guard: the name is non-empty, and neither the price nor the quantity is NaN |
| `Stock.SpliceStart` | scripts/script.js:58 | the start of `splice(index, 1)`: the index itself when it lies in 0..n, n for an index past n, n + index for an index in -n..-1, 0 below -n, and always within 0..n |
| `Stock.RemoveAt` | scripts/script.js:58 | for 0 ≤ i < n: length n−1, records before i unchanged, record at j > i moved to j−1; an index ≥ n leaves the list unchanged; a negative index removes counting from the end, or the first record when it is below −n |
| `Stock.RemoveAtMultiset` | scripts/script.js:58 | the removal loses exactly the record at the splice start and nothing else; when the start is the end, the list is unchanged |
| `Stock.Matches` | scripts/script.js:68 | the `filter` callback: the lower-cased name includes the lower-cased query; an empty query matches every record, and a query longer than the name matches none |
| `Stock.Search` | scripts/script.js:68 | the filter result is no longer than the list and holds only records of the list whose lower-cased name includes the lower-cased query |
| `Stock.PositionsLength` | scripts/script.js:68 | there is one full-list position per search result, the k-th at or after k and inside the list |
| `Stock.PositionsLocate` | scripts/script.js:68 | the k-th search result is the record at the k-th position |
| `Stock.PositionsIncrease` | scripts/script.js:68 | the positions strictly increase, so the filter keeps list order |
| `Stock.PositionsExactlyMatches` | scripts/script.js:68 | a position is listed if and only if its record matches the query |
| `Stock.SearchIsSubsequence` | scripts/script.js:67-68 | the search result is exactly the subsequence of matching records in their original order |
| `Stock.SearchEmptyQuery` | scripts/script.js:67-68 | an empty query returns the whole list |
| `Stock.Render` | scripts/script.js:32-40 | the row template (the same at lines 71-79): row k shows the k-th record of the rendered list and its delete button passes k |
| `Stock.FullRowsTargetTheirRecord` | scripts/script.js:32-40 | in the full table, the delete button of each row addresses the record that row shows |
| `Stock.SearchRowsTargetFullIndex` | scripts/script.js:71-79 | in a search view, row k passes k, an index into the full list, while it shows the record at position Positions[k] ≥ k; the two agree when Positions[k] = k |
| `Stock.SearchRowDeletesOtherRecord` | scripts/script.js:77 | with "pan" and "leche" and the query "leche", the only row shows "leche" but its delete button removes "pan" |
| `Stock.LoadedCatalog` | scripts/script.js:10 | an absent stored value gives the empty list; a stored list is taken as it is |
| `Stock.Inventory.Load` | scripts/script.js:10 | page load: the list is the stored list, or empty when nothing is stored; the full table is drawn and the invariant holds |
| `Stock.Inventory.Persist` | scripts/script.js:85-87 | the stored copy is overwritten with the whole current list |
| `Stock.Inventory.ShowTotal` | scripts/script.js:48-51 | the shown total is the total of the full list |
| `Stock.Inventory.ShowAll` | scripts/script.js:30-43 | the table shows every record with its own index, then the total of the full list |
| `Stock.Inventory.Add` | scripts/script.js:15-25 | with a non-empty name and two numbers, exactly one record `{nombre, precio, cantidad}` is appended and earlier records are unchanged; the list is stored and redrawn, and the total rises by precio × cantidad; otherwise the list, the stored copy, the table and the total stay as they were |
| `Stock.Inventory.Delete` | scripts/script.js:57-61 | the list becomes the `splice(index, 1)` result and is stored whether or not anything was removed; the table is redrawn; a removal lowers the total by the removed record's value; the invariant is kept |
| `Stock.Inventory.Find` | scripts/script.js:66-80 | the table shows the search result numbered from 0; the list, the stored copy and the shown total are not changed |
| `Stock.Inventory.PressDelete` | scripts/script.js:57-61 | pressing row k's delete button always removes exactly one record: the one at the row's index in the full list; the list is then stored, the full table is redrawn, and the total drops by that record's value |

## Left out

- Reading and writing the page (`getElementById`, `innerHTML`, the HTML of each row): the table is modelled only as a list of (record, button index) rows.
- Number parsing with `parseFloat` and `parseInt`: the inputs arrive already parsed, and `None` stands for NaN.
- `Infinity`: `parseFloat` can return it for the price, and `parseInt` for the quantity when the digit string is very long. It passes the NaN test, and `JSON.stringify` then stores it as `null`. Prices are exact `real`s and quantities unbounded `int`s here, so this case does not arise.
- Floating-point rounding in the total, `toFixed(2)` and the "€" text: the total is exact `real` arithmetic.
- `localStorage` and the JSON encoding: the stored value is modelled as the list it encodes. A stored value that is not valid JSON makes `JSON.parse` throw, and that exception is not modelled.
- `Text.Lower`: `toLowerCase` is a per-character map supplied by the caller. This leaves out three things: characters whose lower-case form has a different length; lower-casing that depends on context, such as the final sigma in `"ΟΔΟΣ".toLowerCase()` giving `"οδος"`; and the UTF-16 code units JavaScript strings are made of, since a Dafny `char` is a whole character here.
- `Stock.Inventory.Delete`: the index is an integer. The handler is only ever called with the integer row numbers of the table, so `splice`'s handling of fractional or non-numeric indices is not modelled.
