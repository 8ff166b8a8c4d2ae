# DataTable, InputField and utilities: a Dafny model

This project models the parts of a small React component library that have behaviour of their own:

- **The DataTable state machine** (`data_table_sort.dfy`, `data_table.dfy`). The component keeps two pieces of state. `sortConfig` is null or a key with a direction. `selectedRows` is a sequence of row objects. They are modelled as the fields of the class `DataTable.TableState`, and each event handler is a method of it:
  - a header click
  - `requestSort`
  - `toggleRowSelection`
  - `toggleAllRowsSelection`
  - `handleRowClick`
  - `handleRowKeyDown`

  Each selection handler method (row toggle, select-all, row click, row key press) returns the payload it would hand to `onRowSelect`: `Silent` when the callback is not called, `SelectedRows(...)` or `ClickedRow(row)`. Every method's new state and payload equal a pure transition function of the old state. Lemmas about those functions state the sort cycle, the toggle laws, the select-all cycle and click/keyboard parity. The sorted view `sortedData` is the pure function `DataTableSort.SortedData`. It is a functional insertion sort that uses the component's comparator. It is proved to be a permutation, ordered by the key in the chosen direction, and stable. It is also proved to be the only sequence with those properties, so any stable sort the host engine runs returns the same rows. ECMA-262 has required `Array.prototype.sort` to be stable since its 2019 edition.
- **InputField's derived presentation logic** (`input_field.dfy`):
  - the class list `createInputClasses` builds
  - the `type` attribute
  - the clear-button, password-button and `disabled` conditions
  - the local state `internalValue` and `showPassword`, with the clear, change and password-toggle handlers
- **Two utilities** (`utils.dfy`): `clamp` and `capitalize`.

`wrappers.dfy` holds the `Option` type, which models a nullable value or an omitted prop.

Some modelling choices:
- Rows are values of any type `R` with equality. Dafny equality on `R` takes the place of the object identity that the component's `includes` and `!==` test. Two rows are the same row only if they are the same object, not merely equal in content.
- A row's cell under a key is read through a total accessor `value(row, key)` that returns an integer.
- The props `data` and `selectable` are parameters of the handlers, because every handler closure reads the props of the render that made it. Each method call stands for one event handled after a fresh render; see "Left out" for events that run two handlers.
- Select-all compares lengths only, as the code does. `LengthTestMeansAllSelected` shows when that agrees with "every row is selected": the selection holds distinct rows of the data and the data has no repeated row.
- Sorting by any key is allowed, as in the code. Only a click on a non-sortable header is ignored.
- Once a key has been sorted, `sortConfig` is never null again. Repeated clicks alternate between ascending and descending. This is what the code does, and the model keeps it.
- `sortedData` builds a new sequence from a copy of `data`. Dafny sequences are values, so `data` itself is unchanged by construction.

## Model

| member | source | states |
|---|---|---|
| DataTableSort.Compare | src/components/DataTable/DataTable.tsx:20-29 | The comparator returns -1, 0 or 1. It returns 0 exactly when the two cells are equal. It is non-positive exactly when the first cell may stand before the second in the chosen direction. |
| DataTableSort.CompareIsConsistent | src/components/DataTable/DataTable.tsx:19-30 | The comparator is a consistent comparator: swapping the arguments negates it, and both "not after" and "equal" are transitive. |
| DataTableSort.StableSort | src/components/DataTable/DataTable.tsx:19 | Sorting a copy of the rows returns a permutation of them: the same multiset and the same length. |
| DataTableSort.StableSortIsStableSort | src/components/DataTable/DataTable.tsx:19-30 | The result is ordered by the comparator, and for every cell value the rows with that value appear in their input order. |
| DataTableSort.StableSortUnique | src/components/DataTable/DataTable.tsx:19-30 | Any sequence that is ordered and keeps the input order of each group of rows with equal cells equals `StableSort` of the input. |
| DataTableSort.SortedData | src/components/DataTable/DataTable.tsx:16-31 | `sortedData` is a permutation of `data`. With `sortConfig` null it is `data` itself. |
| DataTableSort.SortedDataOrder | src/components/DataTable/DataTable.tsx:19-30 | Sorted ascending, the key's cells never decrease along the view. Sorted descending, they never increase. |
| DataTableSort.SortedDataStable | src/components/DataTable/DataTable.tsx:19 | Rows with equal cells under the sort key keep their relative input order. |
| DataTableSort.SortedDataIsTheStableSort | src/components/DataTable/DataTable.tsx:19-30 | Every stable sort with the component's comparator returns exactly `SortedData`. |
| DataTableSort.SortedDataIdempotent | src/components/DataTable/DataTable.tsx:16-31 | Sorting the sorted view again under the same configuration returns it unchanged. |
| DataTableSort.SortedDataByNameAscending | src/components/DataTable/DataTable.test.tsx:61-71 | The three fixture rows sorted by name ascending give Alice, Bob, Charlie. |
| DataTableSort.SortedDataByNameDescending | src/components/DataTable/DataTable.test.tsx:73-78 | The second click sorts descending and gives Charlie, Bob, Alice. |
| DataTable.SortHeaderScenario | src/components/DataTable/DataTable.test.tsx:61-79 | From mount, the first click on "name" sorts it ascending and the second descending. A click on the unsortable "email" header (DataTable.tsx:127) leaves that unchanged, and a third click on "name" is ascending again. |
| DataTable.RowActivationScenario | src/components/DataTable/DataTable.test.tsx:81-99 | On a non-selectable table, a click and an Enter key on a row each report that row. A Tab key, which the model adds to the test, reports nothing, and the selection stays empty. |
| DataTable.NextSortConfig | src/components/DataTable/DataTable.tsx:33-39 | `requestSort(key)` always sorts by `key`. The direction is descending exactly when `key` is currently sorted ascending. |
| DataTable.SortCycle | src/components/DataTable/DataTable.tsx:33-39 | With no sort, or with another key sorted, the key is sorted ascending. Ascending goes to descending and descending back to ascending. Two more clicks on the same key return to the same configuration, which is never null. |
| DataTable.Without | src/components/DataTable/DataTable.tsx:44 | Filtering out `row` keeps exactly the other selected rows: the multiset with `row`'s count set to 0. It leaves a selection without `row` unchanged and shortens one that contains it. |
| DataTable.Toggled | src/components/DataTable/DataTable.tsx:43-47 | Toggling flips whether `row` is selected and leaves every other row's membership alone. An absent row is appended at the end. |
| DataTable.ToggleTwiceRestores | src/components/DataTable/DataTable.tsx:41-48 | Toggling an unselected row twice gives back exactly the original selection. |
| DataTable.ToggleTwiceReorders | src/components/DataTable/DataTable.tsx:43-47 | Toggling a selected row twice keeps the same rows but moves that row to the end. |
| DataTable.ToggledKeepsSelection | src/components/DataTable/DataTable.tsx:41-48 | Toggling a row of `data` keeps the selection made of distinct rows of `data`. |
| DataTable.AllToggled | src/components/DataTable/DataTable.tsx:54-66 | Select-all gives an empty selection or a copy of `data`. It is empty exactly when the lengths agree or `data` is empty. |
| DataTable.ToggleAllCycle | src/components/DataTable/DataTable.tsx:54-66 | On non-empty data, from any selection of another length, select-all goes full, empty, full. The header checkbox (line 113) goes checked, unchecked. |
| DataTable.LengthTestMeansAllSelected | src/components/DataTable/DataTable.tsx:55 | For distinct data and a selection of distinct rows of it, equal lengths hold exactly when every row of `data` is selected. |
| DataTable.AllToggledKeepsSelection | src/components/DataTable/DataTable.tsx:56-61 | After select-all on distinct data, the selection is again made of distinct rows of `data`. |
| DataTable.HeaderChecked | src/components/DataTable/DataTable.tsx:113 | A checked header checkbox means select-all clears the selection. An unchecked one over non-empty data means select-all selects every row. |
| DataTable.ToggleRowTransition | src/components/DataTable/DataTable.tsx:41-52 | The row's membership flips and the selection becomes `Toggled`. In selectable mode the callback receives the new selection itself; otherwise nothing is reported. |
| DataTable.ToggleAllTransition | src/components/DataTable/DataTable.tsx:54-66 | The selection becomes empty or all of `data`. It is empty exactly when the header was checked or `data` is empty. In selectable mode the callback receives the new selection; otherwise nothing is reported. |
| DataTable.RowClickTransition | src/components/DataTable/DataTable.tsx:68-74 | In selectable mode a click is a row toggle. Otherwise it reports the row alone and leaves the selection unchanged. |
| DataTable.RowKeyDownTransition | src/components/DataTable/DataTable.tsx:76-85 | Only Enter and Space report anything, and the selection changes only for those keys in selectable mode. |
| DataTable.KeyDownMatchesClick | src/components/DataTable/DataTable.tsx:68-85 | Enter and Space give the same new selection and payload as a click. Any other key changes nothing and reports nothing. |
| DataTable.TableState.constructor | src/components/DataTable/DataTable.tsx:13-14 | At mount nothing is sorted and nothing is selected. |
| DataTable.TableState.SortedRows | src/components/DataTable/DataTable.tsx:16-31 | The rows the table shows are a permutation of `data` under the current `sortConfig`. |
| DataTable.TableState.RequestSort | src/components/DataTable/DataTable.tsx:33-39 | The new `sortConfig` is `NextSortConfig` of the old one. The selection is untouched. |
| DataTable.TableState.ClickHeader | src/components/DataTable/DataTable.tsx:127 | A click on a sortable header requests a sort by its `dataIndex`. A non-sortable header leaves `sortConfig` unchanged. |
| DataTable.TableState.ToggleRowSelection | src/components/DataTable/DataTable.tsx:41-52 | The selection becomes `Toggled(old, row)` whatever `selectable` is. The new selection is reported only when `selectable` is true. |
| DataTable.TableState.ToggleAllRowsSelection | src/components/DataTable/DataTable.tsx:54-66 | The selection becomes `AllToggled(old, data)` and is reported only when `selectable` is true. |
| DataTable.TableState.HandleRowClick | src/components/DataTable/DataTable.tsx:68-74 | The new selection and payload are `RowClickTransition` of the old selection. |
| DataTable.TableState.HandleRowKeyDown | src/components/DataTable/DataTable.tsx:76-85 | The new selection and payload are `RowKeyDownTransition` of the old selection. By `KeyDownMatchesClick` this is the click's result for Enter and Space. |
| InputField.CreateInputClasses | src/components/InputField/InputField.tsx:65-100 | The pushes build the base, variant, size, invalid and loading groups, in that order. |
| InputField.InputClasses | src/components/InputField/InputField.tsx:65-100 | Whatever the props, the list begins with the thirteen base classes of lines 69-71. |
| InputField.VariantMapping | src/components/InputField/InputField.tsx:74-80 | `bg-gray-100` is present exactly for filled, `bg-white` exactly for outlined and `rounded-none` exactly for ghost. |
| InputField.SizeMapping | src/components/InputField/InputField.tsx:83-89 | `text-sm`, `text-base` and `text-lg` are present exactly for sm, md and lg, so exactly one of them is present. |
| InputField.StateFlags | src/components/InputField/InputField.tsx:92-97 | The three red classes are present exactly when `invalid` is true, and `opacity-75` exactly when `loading` is true. |
| InputField.StateFlagsAppendOnly | src/components/InputField/InputField.tsx:91-97 | The two flags only append. The classes before them are those of the same props with both flags false. |
| InputField.EffectiveInputType | src/components/InputField/InputField.tsx:62 | The `type` is the prop or `text`. It differs from the prop exactly for a password input with the toggle enabled while the password is revealed. |
| InputField.PasswordToggleShown | src/components/InputField/InputField.tsx:149 | The button is never shown while loading. When shown, revealing gives `text` and hiding gives `password`. When not loading, it is shown exactly when `showPassword` changes the input's `type`. |
| InputField.InitialValue | src/components/InputField/InputField.tsx:30 | In the first render the internal value is the non-empty `value` prop if there is one, else the `defaultValue`, else `''`. An empty `value` counts as absent. |
| InputField.MountedValue | src/components/InputField/InputField.tsx:30-38 | Once mounted, the internal value is the `value` prop whenever it is defined, `''` included. Otherwise it is the `defaultValue` or `''`. |
| InputField.MountEffectMatters | src/components/InputField/InputField.tsx:30-38 | The mount effect changes the first render's value exactly when `value` is `''` and `defaultValue` is non-empty. |
| InputField.ClearButtonShown | src/components/InputField/InputField.tsx:139 | The clear button is shown only when enabled, for a non-empty value and not while loading, and then always. |
| InputField.InputDisabled | src/components/InputField/InputField.tsx:123 | The input is disabled while loading. When not loading, it is disabled exactly when the `disabled` prop is set. |
| InputField.LoadingLocksInput | src/components/InputField/InputField.tsx:123-149 | While loading, the input is disabled and neither the clear button nor the password button is shown. |
| InputField.InputFieldState.constructor | src/components/InputField/InputField.tsx:30-38 | After mounting, the internal value is `MountedValue` and the password is hidden. The first render's `InitialValue` is overwritten by the effect's first run. |
| InputField.InputFieldState.SyncValueProp | src/components/InputField/InputField.tsx:34-38 | A defined `value` prop replaces the internal value. An undefined one leaves it alone. The password flag is untouched. |
| InputField.InputFieldState.HandleChange | src/components/InputField/InputField.tsx:40-44 | The typed value becomes the internal value. The password flag is untouched. |
| InputField.InputFieldState.HandleClear | src/components/InputField/InputField.tsx:46-47 | The internal value becomes `''`, so the clear button (line 139) is no longer shown. |
| InputField.InputFieldState.TogglePasswordVisibility | src/components/InputField/InputField.tsx:58-60 | `showPassword` is negated, so two toggles restore it. The value is untouched. |
| InputField.ClearScenario | tests/InputField.test.tsx:41-47 | A field mounted with `defaultValue="test"` shows the clear button. Clicking it leaves the value `''` and hides the button. |
| InputField.PasswordToggleScenario | tests/InputField.test.tsx:49-58 | A password field with the toggle shows the button and starts as `password`. It becomes `text` after the test's one click. A second click, added by the model, turns it back to `password`. |
| Utils.Clamp | src/utils/index.ts:50-52 | The result is never above `max`, and is at least `min` when `min <= max`. It is `value` when `value` is in range, and `max` when `min > max`. |
| Utils.ClampIsNearest | src/utils/index.ts:50-52 | For a valid range the result is the point of the range nearest to `value`. |
| Utils.ClampIdempotent | src/utils/index.ts:50-52 | Clamping twice is the same as clamping once, for every `min` and `max`, including `min > max`. |
| Utils.UpperAscii | src/utils/index.ts:65 | `a`..`z` map to `A`..`Z`; every other character is unchanged. |
| Utils.Capitalize | src/utils/index.ts:64-66 | The result has the same length and the same tail `s[1..]`. Its first character is the upper-case form of `s[0]`, and `""` stays `""`. |
| Utils.CapitalizeFixedPoints | src/utils/index.ts:64-66 | A string that does not start with a lower-case letter is unchanged, so capitalizing twice is the same as capitalizing once. |

## Left out

- SortedData: cells are integers read through a total accessor. Strings compared with JavaScript `<`, `undefined` cells and comparisons across types are not modelled.
- SortedData: the host engine's sorting algorithm is not modelled, only its result. `SortedDataIsTheStableSort` shows that every stable sort with this comparator gives that result.
- `useMemo` caching of the sorted view is not modelled. It is recomputed from `data` and `sortConfig` on every read.
- Replacing the `data` prop while a selection exists is not modelled as an event. The handlers take the current `data` as a parameter, so a stale selection simply stays in `selectedRows`.
- React's batching of state updates. Each method call is one event, handled after a fresh render: it reads the selection the previous call left. Events that run two handlers against the same render are not modelled. In selectable mode, a click on a row's checkbox (DataTable.tsx:228) bubbles to the row's `onClick` (DataTable.tsx:220). Both handlers then toggle from the same old selection, so the row ends up toggled once and `onRowSelect` receives the same new selection twice. Two method calls in a row would instead toggle it back.
- The optional call `onRowSelect?.(...)`: the payload is returned whether or not a callback is supplied.
- `e.preventDefault()` in the row key handler: a side effect on the browser event.
- All JSX rendering of the table: row and header classes, SVG sort icons, `aria-sort`, `aria-selected`, and the loading and empty states. The event wiring is modelled: the header `onClick` (`TableState.ClickHeader`), the row `onClick` and `onKeyDown` (`HandleRowClick`, `HandleRowKeyDown`), and the header checkbox's `checked` condition (`HeaderChecked`). Only the rendered output is left out.
- A keydown on a table header: headers have no key handler, so the test at `DataTable.test.tsx:101-111` describes no behaviour of the code.
- InputField's generated id (`Date.now()`, `Math.random()`) and its `console.log`: a clock, randomness and I/O.
- Forwarding the DOM ref, setting the DOM input's value on clear, and the synthetic change event sent to `onChange` on clear. These are DOM side effects.
- React's scheduling of the `value` effect. The constructor runs it once after the first render's state, and `SyncValueProp` is the run that follows a change of the `value` prop; when React runs it is not modelled.
- The `onChange` callback of `handleChange`.
- CreateInputClasses: returns the class list before `join(' ')`. The string join is not modelled.
- `variant` and `size` are closed enumerations, as their TypeScript types declare. A value outside them, for which the code pushes no class, is not modelled.
- The defaults `variant = 'outlined'`, `size = 'md'` and `type = 'text'` are applied by whoever builds `InputProps`.
- The rendering of the label, helper text and error message.
- `generateId` (randomness), `debounce` and `throttle` (timers) and `formatNumber` (locale-dependent, floating point).
- Clamp: works on unbounded integers. JavaScript numbers are floats, and NaN and infinities are not modelled.
- Capitalize: upper-cases ASCII `a` to `z` only. JavaScript's `toUpperCase` applies full Unicode case mapping, which can change the length (`ß` becomes `SS`). UTF-16 surrogate pairs at position 0 are not modelled either.
- The ErrorBoundary component is not part of this model. It is a class component whose state `{ hasError, error? }` (src/components/ErrorBoundary/ErrorBoundary.types.ts:10-13) is set by React's error lifecycle, through `getDerivedStateFromError`. Its `componentDidCatch` reports the error to `onError`. Only its type declarations and its compiled declaration file are in the source, not its implementation.
- The Loading component is not part of this model: it is presentational only.
- The build and deployment scripts and the development server are not part of this model: they do I/O.
- The configuration files, Storybook stories, generated type declarations and the constants module are not part of this model: they are configuration, fixtures or generated declarations.
