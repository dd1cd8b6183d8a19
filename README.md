# Invoice ledger of the POS page

This project models the invoice ledger of the point-of-sale page in Dafny and proves properties of it. The ledger is the script at the end of `backend/resources/views/pos.blade.php`. The page keeps four globals. `gTotal` is the grand total, `disc` the discount, `netPayable` the net payable amount, and `rowNumber` the id the next row will get. It also keeps a table body of rows, each with an item name, a quantity input, a price input and a row-total cell. Three click handlers update this state:

- `liClick` runs when a catalog item is clicked. It appends a row with quantity 1, price 1 and total 1. It adds that total to `gTotal`, recomputes the discount and the net payable, and increments `rowNumber`.
- `rowClick` runs when a row is clicked. It recomputes the row total as quantity times price. It sets the grand total to `old gTotal - old row total + new row total`, then recomputes the discount and the net payable.
- `updateDisc` runs when the discount input is clicked. It recomputes only the discount and the net payable.

Everything is in one module, `InvoiceLedger` (`ledger.dfy`), in two layers:

- **The value layer.** `Ledger` is a snapshot of the page state. `AfterLiClick`, `AfterRowClick` and `AfterUpdateDisc` are the handlers as step functions. `Run` folds a sequence of user `Event`s. `SumTotals` recomputes the grand total from scratch and is the reference that the incremental updates are proved against. `ValidState` is the invariant:
  - the grand total is the sum of the row totals;
  - `disc == gTotal * discPer / 100` and `netPayable == gTotal - disc`;
  - every row total equals quantity times price;
  - the k-th row has id k, and `rowNumber` is the number of rows plus one.
- **The state layer.** The class `Invoice` holds the page state as fields. Its methods `LiClick`, `RowClick` and `UpdateDisc` update those fields in place, as the handlers do. Each method ensures that the new snapshot equals the step function applied to the old snapshot, and that `Valid()` is kept. `ChickenAndFish` is a client of the class that replays a session on the seeded catalog (Chicken 150, Fish 350).

How the page's inputs are modelled:

- **DOM reads become arguments.** Each handler takes the values it reads from the page: the item text (`textContent` of the clicked list item, including its `" + "` prefix), the current quantity and price inputs, and the current discount-input value `discPercent`. The percentage last read is kept as the field `discPer`. The discount input starts at 0 (`pos.blade.php:59`), so `discPer` starts at 0 too.
- **`rowClick` reads two figures from the DOM.** It reads the old grand total and the old row total from the display cells, not from variables. Every handler that changes `gTotal` or a row total writes the new value to its cell (`liClick` at `pos.blade.php:131` and `136`, `rowClick` at `160-161` and `172`); `updateDisc` changes neither. The model therefore uses the ledger's own `gTotal` and the row's stored `total`.
- **A row's `qty` and `price` are the input values read at its last click.** For a new row they are 1 and 1.
- **Arithmetic is exact.** Quantities, prices and totals are `int`. The discount and the net payable are `real`. There is no floating point and no rounding, and the source has no rounding rule either.

The model follows the code as written, including where an invoice calculator would be expected to behave differently:

- A new row's price is the constant 1 (`pos.blade.php:121`), not the catalog price. The clicked list item does not even carry the price.
- There is no validation. Negative quantities and prices, and any discount percentage, are accepted as they are.
- There is no row removal.
- `liClick` is never closed with a `}` before `rowClick` begins (`pos.blade.php:141-143`). The handlers are modelled as three independent top-level functions, which is evidently what was meant.
- A `rowClick` on an id that names no row would throw on the null element lookup (`pos.blade.php:149`) before any assignment. The model leaves the state unchanged and returns `found == false`.

## Model

| member | source | states |
|---|---|---|
| InvoiceLedger.InitValid | backend/resources/views/pos.blade.php:110-113 | The page-load state has no rows, gTotal, disc and netPayable all 0 and rowNumber 1, and it satisfies the ledger invariant |
| InvoiceLedger.Find | backend/resources/views/pos.blade.php:144-150 | The row lookup by element id returns the index of the first row carrying that id, and returns None exactly when no row carries it |
| InvoiceLedger.SumTotalsAppend | backend/resources/views/pos.blade.php:123-131 | Appending a row adds exactly its total to the from-scratch sum of row totals |
| InvoiceLedger.SumTotalsUpdate | backend/resources/views/pos.blade.php:155-164 | Replacing one row changes the from-scratch sum by the new total minus the old one, which is the difference rowClick applies |
| InvoiceLedger.FindNumbered | backend/resources/views/pos.blade.php:131-133 | In rows numbered consecutively from a base, the lookup of id finds offset id - base when that offset exists, and nothing otherwise |
| InvoiceLedger.LiClickAppends | backend/resources/views/pos.blade.php:119-133 | An item click appends one row with id = old rowNumber, quantity 1, price 1 and total 1; earlier rows are untouched; rowNumber rises by 1 and gTotal by the new row's total |
| InvoiceLedger.LiClickKeepsSum | backend/resources/views/pos.blade.php:123-131 | If gTotal equalled the sum of row totals before an item click, the incrementally updated gTotal equals it after |
| InvoiceLedger.LiClickPreservesValid | backend/resources/views/pos.blade.php:116-140 | An item click keeps the whole invariant: sum, derived discount and net payable, per-row pricing, numbering |
| InvoiceLedger.RowClickFrame | backend/resources/views/pos.blade.php:143-167 | A row click sets that row's total to qty * price and gTotal to old gTotal - old row total + new row total; other rows, the row's id and name, the row count and rowNumber stay; an unknown id changes nothing |
| InvoiceLedger.RowClickKeepsSum | backend/resources/views/pos.blade.php:149-164 | The incremental grand total of a row click equals the sum of row totals recomputed from scratch, whenever that held before |
| InvoiceLedger.RowClickPreservesValid | backend/resources/views/pos.blade.php:143-180 | A row click keeps the whole invariant |
| InvoiceLedger.RowClickFindsIssuedIds | backend/resources/views/pos.blade.php:131-133 | In a valid ledger a row click finds a row exactly for ids 1 .. rowNumber - 1, and finds id k at position k - 1 |
| InvoiceLedger.RowClickRefire | backend/resources/views/pos.blade.php:152-167 | Clicking a row again with the quantity and price it already shows and the percentage already applied leaves the whole ledger unchanged |
| InvoiceLedger.UpdateDiscFrame | backend/resources/views/pos.blade.php:182-192 | The discount click leaves the rows, gTotal and rowNumber unchanged, makes disc and netPayable derived from the new percentage, and a second click with the same percentage changes nothing |
| InvoiceLedger.UpdateDiscPreservesValid | backend/resources/views/pos.blade.php:185-187 | The discount click keeps the whole invariant |
| InvoiceLedger.FiguresSplitGrandTotal | backend/resources/views/pos.blade.php:126-128 | disc + netPayable == gTotal; at 0% the net payable is the grand total and the discount 0; at 100% the discount is the grand total and the net payable 0 |
| InvoiceLedger.IdsIncreasing | backend/resources/views/pos.blade.php:113-133 | In a valid ledger the row ids are strictly increasing in table order, hence unique, and all lie in 1 .. rowNumber - 1, so a new row never reuses an id |
| InvoiceLedger.StepPreservesValid | backend/resources/views/pos.blade.php:116-192 | Every one of the three handlers keeps the invariant |
| InvoiceLedger.RunPreservesValid | backend/resources/views/pos.blade.php:110-192 | Any sequence of clicks from a valid state, in particular from page load, ends in a valid state |
| InvoiceLedger.RunKeepsRowIds | backend/resources/views/pos.blade.php:131-164 | Over any sequence of clicks, rows are never removed, reordered, renumbered or renamed, and rowNumber never decreases |
| InvoiceLedger.Invoice.constructor | backend/resources/views/pos.blade.php:110-113 | The page-load fields: no rows, all figures 0, rowNumber 1, invariant established |
| InvoiceLedger.Invoice.LiClick | backend/resources/views/pos.blade.php:116-140 | Updates the fields in place to the item-click step of the old state: one row (old rowNumber, text, 1, 1, 1) appended, rowNumber + 1, gTotal + 1, invariant kept |
| InvoiceLedger.Invoice.RowClick | backend/resources/views/pos.blade.php:143-180 | Updates the fields in place to the row-click step of the old state; reports whether the id named a row; keeps the invariant, so gTotal is the sum of the row totals afterwards |
| InvoiceLedger.Invoice.UpdateDisc | backend/resources/views/pos.blade.php:182-192 | Updates only disc, netPayable and the percentage, to the discount-click step of the old state; rows, gTotal and rowNumber unchanged |

## Left out

- The catalog handlers (category and sub-category `change` events with their AJAX calls, `pos.blade.php:74-108`) and the server controllers: they are network calls and view wiring, with no ledger state.
- Rendering and logging: the `.html('')` / `.append(...)` writes of the table rows and the footer cells, which display the figures the model holds, and the `console.log(e3.value)` call at the start of `updateDisc` (`pos.blade.php:183`), which only logs.
- String-to-number coercion of the DOM values (empty input read as 0, text parsed as a number) and JavaScript double arithmetic: the model takes the values the handlers read as exact integers and reals.
- The moment the DOM inputs change. A user types into a quantity, price or discount input after the click that fires the handler, so the page can show inputs newer than the figures. The model sees input values only when a handler reads them, as that handler's arguments.
- The parse error caused by the unclosed `liClick`: as written, the browser would reject the whole script. The model takes the three handlers as separate, which is the evident intent.
- Validation, rounding and row removal: the source has none, and the model adds none.
