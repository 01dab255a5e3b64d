# Task-management app: ordering, pagination and task-form logic in Dafny

This project models the three pieces of pure logic inside a multi-user
todo web application.

- **Drag-and-drop reordering** (`reorderWithPosition`, src/lib/ordering.ts).
  The dragged item is spliced out of the list and re-inserted at the drop
  target's index. Its numeric `position` is then recomputed from its new
  neighbours:
  - between two neighbours: their midpoint;
  - at the head: the first neighbour plus the gap to the next one, or 1000;
  - at the tail: the last neighbour minus the gap to the one before, or 1000.

  The persistence callback is then called.
- **Pagination footer arithmetic** (`DataTablePagination`). This covers the
  page count, the "start - end of total" caption, the previous/next flags
  and the page selector's values.
- **Task-edit sheet helpers** (`ViewTask`). This covers `normalizeDate`, the
  `initial`/`current` records, the dirty check, the validity guard and the
  payload `handleSubmit` sends.

Files:
- `wrappers.dfy`: `Option`.
- `ordering.dfy`: module `Ordering`.
- `pagination.dfy`: module `Pagination`.
- `decimal.dfy`: module `Decimal`. The selector renders page numbers with `${n}` and reads them back with `Number(value)`; this module models both.
- `task_form.dfy`: module `TaskForm`.

Modelling choices:
- Positions are `real`, so midpoints are exact.
- The persistence callback is part of the result. `Reordered.update` is `Some(Update(id, position))` when the callback is called once with those arguments. It is `None` when the callback is not called.
- `findIndex` returns the first match, so ids need not be unique.
- A `Date` object is carried as the string its `toISOString()` renders. That rendering depends on the host and is outside the model.

## Reordering behaviour worth knowing

These cases in src/lib/ordering.ts are easy to get wrong:

- **Self-move.** Dropping an item on itself is not a no-op (lines 19-46). The order stays the same, but the position is recomputed from the neighbours and the callback fires (`Ordering.ReorderOntoItself`).
- **Single-item list.** The callback fires with the position unchanged (lines 45-46, `Ordering.ReorderSingleItem`).
- **Direction.** The head branch adds and the tail branch subtracts. In `[A:1000, B:2000, C:3000]`, moving A onto C gives `[B, C, A]` with A at 3000 - 1000 = 2000. Moving C onto A gives `[C, A, B]` with C at 1000 + 1000 = 2000 (`Ordering.ExampleMoveHeadToTail`, `Ordering.ExampleMoveTailToHead`). The scheme therefore keeps lists whose positions *decrease* along the display order (`Ordering.ReorderKeepsDecreasing`).
- **Splice, not swap.** In `[A:1000, B:2000, C:3000, D:4000]`, moving A onto C gives `[B, C, A, D]`, with A at (3000 + 4000) / 2 = 3500 (`Ordering.ExampleSpliceNotSwap`).

## Model

| member | source | states |
|---|---|---|
| Ordering.FindIndex | src/lib/ordering.ts:19-20 | None exactly when no item has the id; otherwise the first index holding it |
| Ordering.Remove | src/lib/ordering.ts:24 | `splice(i, 1)`: one shorter, items before `i` kept, later items shifted down one |
| Ordering.Insert | src/lib/ordering.ts:25 | `splice(j, 0, x)`: `x` at `j`, earlier items kept, later items shifted up one |
| Ordering.Move | src/lib/ordering.ts:23-25 | the relocated list has the input's length and holds the dragged element at the target index |
| Ordering.MoveIsRelocation | src/lib/ordering.ts:23-25 | the splice pair is a single-item relocation: result index k holds input index `Source(i, j, k)` (moved item at j, items between the indices shifted one slot, the rest in place) |
| Ordering.MoveIsPermutation | src/lib/ordering.ts:23-25 | the relocated list has the same multiset of elements |
| Ordering.MoveKeepsOthersInOrder | src/lib/ordering.ts:23-25 | removing the moved element from the result gives the input without it: the others keep their relative order |
| Ordering.Reorder | src/lib/ordering.ts:13-48 | same length; the callback is skipped exactly when either id is absent, and then the list comes back unchanged; the callback carries the dragged id |
| Ordering.ReorderIsRelocation | src/lib/ordering.ts:19-46 | with both ids found, the dragged item (only its position changed) sits at the drop target's old index, every other item is unchanged and placed as relocation prescribes, and the callback gets (activeId, new position) |
| Ordering.ReorderKeepsOthersInOrder | src/lib/ordering.ts:23-25 | all items but the moved one keep their relative order and their positions |
| Ordering.ReorderKeepsIds | src/lib/ordering.ts:21-25 | in every case the result holds the same multiset of ids |
| Ordering.NewPosition | src/lib/ordering.ts:28-44 | between two neighbours the position lies between them; at the head it is at least the first neighbour (exactly +1000 with one neighbour); at the tail at most the last (exactly -1000 with one); alone it is unchanged |
| Ordering.ReorderInteriorPosition | src/lib/ordering.ts:28-33 | with two neighbours, the new position is their midpoint: between them, and strictly between when they differ |
| Ordering.ReorderHeadPosition | src/lib/ordering.ts:34-38 | at the head, new position = after + abs(after - next) (or + 1000 without a second item): at least after, strictly above it for two items |
| Ordering.ReorderTailPosition | src/lib/ordering.ts:39-43 | at the tail, new position = before - abs(before - previous) (or - 1000): at most before, strictly below it for two items |
| Ordering.ReorderSingleItem | src/lib/ordering.ts:31-46 | a one-item list comes back unchanged and the callback still fires with the unchanged position |
| Ordering.ReorderOntoItself | src/lib/ordering.ts:19-46 | activeId == overId keeps the order and all other items, yet the callback fires with the recomputed position |
| Ordering.NewPositionFits | src/lib/ordering.ts:30-44 | if the other items strictly decrease, the computed position is strictly below `before` and strictly above `after` |
| Ordering.RemoveKeepsDecreasing | src/lib/ordering.ts:24 | removing an item keeps strictly decreasing positions strictly decreasing |
| Ordering.FittingItemKeepsDecreasing | src/lib/ordering.ts:45 | an item placed strictly between its decreasing neighbours keeps the whole list strictly decreasing |
| Ordering.ReorderKeepsDecreasing | src/lib/ordering.ts:30-44 | order invariant: strictly decreasing positions along the input stay strictly decreasing along the result |
| Ordering.ExampleMoveHeadToTail | src/lib/ordering.ts:39-43 | [A:1000,B:2000,C:3000], A onto C gives [B,C,A] with A = 2000 and the callback (A, 2000) |
| Ordering.ExampleMoveTailToHead | src/lib/ordering.ts:34-38 | same list, C onto A gives [C,A,B] with C = 2000 |
| Ordering.ExampleSpliceNotSwap | src/lib/ordering.ts:23-33 | [A,B,C,D], A onto C gives [B,C,A,D] with A = (3000+4000)/2 |
| Pagination.TotalPages | src/components/ui/DataTablePagination.tsx:21 | `ceil(total/pageSize)`: (pages-1)*pageSize < total <= pages*pageSize, zero exactly for zero rows |
| Pagination.TotalPagesUnique | src/components/ui/DataTablePagination.tsx:21 | any page count meeting those bounds equals the computed one |
| Pagination.Paginate | src/components/ui/DataTablePagination.tsx:14-27 | nothing is rendered exactly when total is 0; the footer's page count is ceil(total/pageSize) and the selector offers exactly that many options; the selector shows the page number |
| Pagination.PageBounds | src/components/ui/DataTablePagination.tsx:23-24 | on an existing page: 1 <= start <= end <= total, and end - start + 1 <= pageSize |
| Pagination.PagesTile | src/components/ui/DataTablePagination.tsx:21-24 | the captions tile the rows: page 0 starts at 1, every page but the last spans exactly pageSize rows and the next starts right after it, the last ends at total |
| Pagination.NavigationFlags | src/components/ui/DataTablePagination.tsx:24-27 | previous iff pageIndex > 0; next iff (pageIndex+1)*pageSize < total iff end < total |
| Pagination.PageOptions | src/components/ui/DataTablePagination.tsx:53-58 | exactly totalPages options, the k-th being the numeral of k+1 |
| Pagination.SelectPage | src/components/ui/DataTablePagination.tsx:45-47 | a page index results exactly when the value is a numeral, and it is that number minus one |
| Pagination.SelectorRoundTrip | src/components/ui/DataTablePagination.tsx:44-58 | there are exactly totalPages options; each option reads as k+1, selecting it sets page index k, and that page's footer shows the same option |
| Pagination.CurrentPageIsOffered | src/components/ui/DataTablePagination.tsx:44-58 | the shown value is the current page's option and re-selecting it keeps the page |
| Decimal.Render | src/components/ui/DataTablePagination.tsx:55 | `${n}` is a non-empty digit string with no leading zero |
| Decimal.Parse | src/components/ui/DataTablePagination.tsx:46 | `Number(value)` gives a number exactly for non-empty digit strings; a single digit gives its own value |
| Decimal.ParseRender | src/components/ui/DataTablePagination.tsx:46 | `Number` of `${n}` is n |
| Decimal.RenderInjective | src/components/ui/DataTablePagination.tsx:53-58 | distinct page numbers give distinct option values |
| TaskForm.First10 | src/app/app/frame/ViewTask.tsx:28 | `slice(0, 10)` is the prefix of length min(10, length) |
| TaskForm.NormalizeDate | src/app/app/frame/ViewTask.tsx:26-31 | missing gives ''; a string or ISO rendering gives its first min(10, length) characters |
| TaskForm.NormalizeDateIdempotent | src/app/app/frame/ViewTask.tsx:26-31 | normalising a normalised date changes nothing |
| TaskForm.Initial | src/app/app/frame/ViewTask.tsx:66-72 | no selection gives all-empty fields with status 'PENDING'; otherwise title, description and category default to '', the due date is normalised, and the status is its name or 'PENDING' when missing |
| TaskForm.Current | src/app/app/frame/ViewTask.tsx:74-80 | title, description and status pass through; due date and category pass through when set and are '' exactly when unset or empty |
| TaskForm.StatusOrPending | src/app/app/frame/ViewTask.tsx:60 | a present status is kept, a missing one becomes PENDING |
| TaskForm.Load | src/app/app/frame/ViewTask.tsx:46-62 | the effect loads title/description defaulted to '', status defaulted to PENDING, the category id, and the due date `normalizeDate` gives (at most 10 characters) |
| TaskForm.AnyDiffers | src/app/app/frame/ViewTask.tsx:85 | `keys.some(...)` holds iff some listed key's fields differ |
| TaskForm.IsDirty | src/app/app/frame/ViewTask.tsx:83-85 | dirty only with a selected task, and exactly when some key of `initial` differs from `current` |
| TaskForm.IsDirtyIffChanged | src/app/app/frame/ViewTask.tsx:83-85 | dirty iff a task is selected and the `initial` and `current` records differ |
| TaskForm.LoadedFormIsClean | src/app/app/frame/ViewTask.tsx:46-95 | right after loading a task, the form is not dirty and submit sends nothing |
| TaskForm.TrimStart | src/app/app/frame/ViewTask.tsx:87 | drops exactly the leading white space: a suffix, all dropped characters white, first kept one not |
| TaskForm.TrimEnd | src/app/app/frame/ViewTask.tsx:87 | drops exactly the trailing white space |
| TaskForm.Trim | src/app/app/frame/ViewTask.tsx:87 | `trim()` result is a contiguous piece of the string with only white space cut on each side, and neither starts nor ends with white space |
| TaskForm.TrimCutsOnlyWhitespace | src/app/app/frame/ViewTask.tsx:87 | `trim()` keeps the contiguous middle of the string and cuts only white space before and after it |
| TaskForm.TrimNonEmptyIffContent | src/app/app/frame/ViewTask.tsx:87 | `trim().length > 0` iff the string has a non-white-space character |
| TaskForm.IsFormValid | src/app/app/frame/ViewTask.tsx:87 | a valid form is dirty and has a title and a description that are not blank |
| TaskForm.IsFormValidIff | src/app/app/frame/ViewTask.tsx:87 | valid iff a task is selected, `initial` != `current`, and title and description are not blank |
| TaskForm.Submit | src/app/app/frame/ViewTask.tsx:93-106 | sends an update exactly when a task is selected and the form is valid; title, description and status pass through; a non-empty due date and category are sent as set, an empty due date becomes null, an empty category becomes undefined |

## Left out

- Floating-point behaviour of `position`. Positions are exact reals. Precision loss under repeated bisection is not modelled, and the code has no rebalancing.
- Object aliasing at src/lib/ordering.ts:45. `moved.position = ...` also mutates the item object in the caller's input array. The model returns a new sequence instead.
- The persistence callback's effect. It is fire-and-forget, and the model records only its arguments.
- Pagination.Paginate: requires `pageSize > 0`. The table's page sizes are always positive, and with 0 the source would divide by zero (an `Infinity` page count), which is not modelled.
- Pagination.TotalPages: `Math.ceil` of a floating-point quotient is modelled as exact integer ceiling division. It agrees for the table's row counts.
- Pagination.SelectPage: `Number(value)` is modelled only on non-empty digit strings. Other strings (empty, signs, hex, exponents, white space) give None here. The selector never offers them.
- `table.previousPage`, `table.nextPage` and `setPageIndex` belong to the table library. The model stops at the page index they receive.
- TaskForm.First10: `slice(0, 10)` counts UTF-16 code units, but the model counts characters (Unicode scalar values). The two differ only on strings with characters outside the Basic Multilingual Plane, which ISO date strings never contain.
- TaskForm.NormalizeDate: the `Date` branch takes the host's `toISOString()` rendering as given. Date arithmetic and time zones are not modelled. Neither is `new Date(dueDate)` in the payload, which carries the date string instead.
- Error handling around the update request (the toast at ViewTask.tsx:108-110) and closing the sheet are UI side effects and are left out.
- Drag handlers in NavCategories.tsx and DataTable.tsx that call a library `arrayMove`. That library is not part of this model. Data-fetching hooks, API routes, authentication, and the landing, login, modal and toolbar components are also left out; they are framework glue.
